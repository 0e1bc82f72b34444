/** Canonical JSON over UTF-16 code units, and a decoder that undoes it. */
module CanonicalJson {
  import opened Wrappers

  type Unit = u: int | 0 <= u < 0x1_0000

  type Text = seq<Unit>

  datatype Field<T> = Field(key: Text, value: T)

  /** A JavaScript value as the printer meets it: an object's fields stand in insertion order,
      a number is the text JSON.stringify gives it, and Unsupported is any value that is not
      JSON (undefined, a function, a symbol, a bigint, a number that is not finite). */
  datatype Json =
    | Null
    | Boolean(flag: bool)
    | Number(literal: Text)
    | Str(text: Text)
    | Arr(items: seq<Json>)
    | Obj(fields: seq<Field<Json>>)
    | Unsupported

  // ---- code units -----------------------------------------------------------------------

  const QUOTE: Unit := 34
  const PLUS: Unit := 43
  const COMMA: Unit := 44
  const MINUS: Unit := 45
  const DOT: Unit := 46
  const COLON: Unit := 58
  const OPEN: Unit := 91
  const BACKSLASH: Unit := 92
  const CLOSE: Unit := 93
  const LETTER_E: Unit := 101
  const LETTER_U: Unit := 117
  const OPEN_BRACE: Unit := 123
  const CLOSE_BRACE: Unit := 125
  const NULL: Text := [110, 117, 108, 108]
  const TRUE: Text := [116, 114, 117, 101]
  const FALSE: Text := [102, 97, 108, 115, 101]

  predicate Digit(u: Unit) { 48 <= u <= 57 }

  predicate NumberUnit(u: Unit) { Digit(u) || u == PLUS || u == MINUS || u == DOT || u == LETTER_E }

  predicate NumberText(t: Text) {
    t != [] && (Digit(t[0]) || t[0] == MINUS) && forall i :: 0 <= i < |t| ==> NumberUnit(t[i])
  }

  predicate High(u: Unit) { 0xd800 <= u < 0xdc00 }

  predicate Low(u: Unit) { 0xdc00 <= u < 0xe000 }

  // ---- which values are JSON ------------------------------------------------------------

  predicate DistinctKeys<T>(fields: seq<Field<T>>) {
    forall i, j :: 0 <= i < j < |fields| ==> fields[i].key != fields[j].key
  }

  predicate IsJson(v: Json) {
    match v
    case Null => true
    case Boolean(_) => true
    case Number(literal) => NumberText(literal)
    case Str(_) => true
    case Arr(items) => forall i :: 0 <= i < |items| ==> IsJson(items[i])
    case Obj(fields) => DistinctKeys(fields) && forall i :: 0 <= i < |fields| ==> IsJson(fields[i].value)
    case Unsupported => false
  }

  // ---- printing -------------------------------------------------------------------------

  function HexDigit(d: int): Unit
    requires 0 <= d < 16
  {
    if d < 10 then 48 + d else 87 + d
  }

  function UnicodeEscape(u: Unit): Text {
    [BACKSLASH, LETTER_U, HexDigit(u / 4096), HexDigit(u / 256 % 16), HexDigit(u / 16 % 16), HexDigit(u % 16)]
  }

  /** One unit that is not half of a surrogate pair. */
  function EscapeUnit(u: Unit): Text {
    if u == QUOTE || u == BACKSLASH then [BACKSLASH, u]
    else if u == 8 then [BACKSLASH, 98]
    else if u == 9 then [BACKSLASH, 116]
    else if u == 10 then [BACKSLASH, 110]
    else if u == 12 then [BACKSLASH, 102]
    else if u == 13 then [BACKSLASH, 114]
    else if u < 32 || High(u) || Low(u) then UnicodeEscape(u)
    else [u]
  }

  predicate StartsPair(s: Text) { |s| >= 2 && High(s[0]) && Low(s[1]) }

  function Escaped(s: Text): Text {
    if s == [] then []
    else if StartsPair(s) then [s[0], s[1]] + Escaped(s[2..])
    else EscapeUnit(s[0]) + Escaped(s[1..])
  }

  function Quoted(s: Text): Text { [QUOTE] + Escaped(s) + [QUOTE] }

  /** The order of JavaScript's sort on strings: by code units. */
  predicate Before(a: Text, b: Text) {
    if a == [] then b != []
    else b != [] && (a[0] < b[0] || (a[0] == b[0] && Before(a[1..], b[1..])))
  }

  function Insert<T>(f: Field<T>, fields: seq<Field<T>>): seq<Field<T>> {
    if fields == [] || Before(f.key, fields[0].key) then [f] + fields else [fields[0]] + Insert(f, fields[1..])
  }

  function Sort<T>(fields: seq<Field<T>>): seq<Field<T>> {
    if fields == [] then [] else Insert(fields[0], Sort(fields[1..]))
  }

  function JoinTexts(texts: seq<Text>): Text {
    if texts == [] then []
    else if |texts| == 1 then texts[0]
    else texts[0] + [COMMA] + JoinTexts(texts[1..])
  }

  function JoinFields(fields: seq<Field<Text>>): Text {
    if fields == [] then []
    else if |fields| == 1 then Quoted(fields[0].key) + [COLON] + fields[0].value
    else Quoted(fields[0].key) + [COLON] + fields[0].value + [COMMA] + JoinFields(fields[1..])
  }

  function Canon(v: Json): Text {
    match v
    case Null => NULL
    case Boolean(flag) => if flag then TRUE else FALSE
    case Number(literal) => literal
    case Str(text) => Quoted(text)
    case Arr(items) => [OPEN] + JoinTexts(CanonItems(items)) + [CLOSE]
    case Obj(fields) => [OPEN_BRACE] + JoinFields(Sort(CanonFields(fields))) + [CLOSE_BRACE]
    case Unsupported => []
  }

  function CanonItems(items: seq<Json>): seq<Text> {
    if items == [] then [] else [Canon(items[0])] + CanonItems(items[1..])
  }

  function CanonFields(fields: seq<Field<Json>>): seq<Field<Text>> {
    if fields == [] then [] else [Field(fields[0].key, Canon(fields[0].value))] + CanonFields(fields[1..])
  }

  /** canonicalFragment: the text, or the error for a value that is not JSON. */
  function CanonicalFragment(v: Json): Option<Text> {
    if IsJson(v) then Some(Canon(v)) else None
  }

  // ---- what a text means ----------------------------------------------------------------

  /** The value with every object's keys sorted. */
  function Normal(v: Json): Json {
    match v
    case Arr(items) => Arr(NormalItems(items))
    case Obj(fields) => Obj(Sort(NormalFields(fields)))
    case _ => v
  }

  function NormalItems(items: seq<Json>): seq<Json> {
    if items == [] then [] else [Normal(items[0])] + NormalItems(items[1..])
  }

  function NormalFields(fields: seq<Field<Json>>): seq<Field<Json>> {
    if fields == [] then [] else [Field(fields[0].key, Normal(fields[0].value))] + NormalFields(fields[1..])
  }

  datatype Decoded<T> = Decoded(value: T, rest: Text)

  function HexValue(u: Unit): Option<int> {
    if 48 <= u <= 57 then Some(u - 48) else if 97 <= u <= 102 then Some(u - 87) else None
  }

  function DecodeHex(t: Text): Option<Unit>
    requires |t| >= 4
  {
    var a, b, c, d := HexValue(t[0]), HexValue(t[1]), HexValue(t[2]), HexValue(t[3]);
    if a == None || b == None || c == None || d == None then None
    else Some(a.value * 4096 + b.value * 256 + c.value * 16 + d.value)
  }

  function Unescaped(u: Unit): Option<Unit> {
    if u == QUOTE || u == BACKSLASH then Some(u)
    else if u == 98 then Some(8)
    else if u == 116 then Some(9)
    else if u == 110 then Some(10)
    else if u == 102 then Some(12)
    else if u == 114 then Some(13)
    else None
  }

  function Prepend(u: Unit, more: Option<Decoded<Text>>): Option<Decoded<Text>> {
    if more == None then None else Some(Decoded([u] + more.value.value, more.value.rest))
  }

  /** The inside of a string up to its closing quote. */
  function DecodeString(t: Text): (r: Option<Decoded<Text>>)
    ensures r.Some? ==> |r.value.rest| < |t|
  {
    if t == [] then None
    else if t[0] == QUOTE then Some(Decoded([], t[1..]))
    else if t[0] != BACKSLASH then Prepend(t[0], DecodeString(t[1..]))
    else if |t| >= 6 && t[1] == LETTER_U then
      var u := DecodeHex(t[2..6]);
      if u == None then None else Prepend(u.value, DecodeString(t[6..]))
    else if |t| >= 2 then
      var u := Unescaped(t[1]);
      if u == None then None else Prepend(u.value, DecodeString(t[2..]))
    else None
  }

  function NumberLength(t: Text): (n: nat)
    ensures n <= |t|
  {
    if t == [] || !NumberUnit(t[0]) then 0 else 1 + NumberLength(t[1..])
  }

  predicate StartsWith(t: Text, prefix: Text) { |t| >= |prefix| && t[..|prefix|] == prefix }

  function Decode(t: Text): (r: Option<Decoded<Json>>)
    ensures r.Some? ==> |r.value.rest| < |t|
    decreases |t|, 0
  {
    if t == [] then None
    else if t[0] == QUOTE then
      var s := DecodeString(t[1..]);
      if s == None then None else Some(Decoded(Str(s.value.value), s.value.rest))
    else if t[0] == OPEN then
      if |t| >= 2 && t[1] == CLOSE then Some(Decoded(Arr([]), t[2..]))
      else
        var items := DecodeItems(t[1..]);
        if items == None then None else Some(Decoded(Arr(items.value.value), items.value.rest))
    else if t[0] == OPEN_BRACE then
      if |t| >= 2 && t[1] == CLOSE_BRACE then Some(Decoded(Obj([]), t[2..]))
      else
        var fields := DecodeFields(t[1..]);
        if fields == None then None else Some(Decoded(Obj(fields.value.value), fields.value.rest))
    else if StartsWith(t, NULL) then Some(Decoded(Null, t[4..]))
    else if StartsWith(t, TRUE) then Some(Decoded(Boolean(true), t[4..]))
    else if StartsWith(t, FALSE) then Some(Decoded(Boolean(false), t[5..]))
    else
      var n := NumberLength(t);
      if n == 0 then None else Some(Decoded(Number(t[..n]), t[n..]))
  }

  function DecodeItems(t: Text): (r: Option<Decoded<seq<Json>>>)
    ensures r.Some? ==> |r.value.rest| < |t|
    decreases |t|, 1
  {
    var first := Decode(t);
    if first == None || first.value.rest == [] then None
    else
      var rest := first.value.rest;
      if rest[0] == CLOSE then Some(Decoded([first.value.value], rest[1..]))
      else if rest[0] != COMMA then None
      else
        var more := DecodeItems(rest[1..]);
        if more == None then None else Some(Decoded([first.value.value] + more.value.value, more.value.rest))
  }

  function DecodeField(t: Text): (r: Option<Decoded<Field<Json>>>)
    ensures r.Some? ==> |r.value.rest| < |t|
    decreases |t|, 1
  {
    if t == [] || t[0] != QUOTE then None
    else
      var key := DecodeString(t[1..]);
      if key == None || key.value.rest == [] || key.value.rest[0] != COLON then None
      else
        var v := Decode(key.value.rest[1..]);
        if v == None then None else Some(Decoded(Field(key.value.value, v.value.value), v.value.rest))
  }

  function DecodeFields(t: Text): (r: Option<Decoded<seq<Field<Json>>>>)
    ensures r.Some? ==> |r.value.rest| < |t|
    decreases |t|, 2
  {
    var first := DecodeField(t);
    if first == None || first.value.rest == [] then None
    else
      var rest := first.value.rest;
      if rest[0] == CLOSE_BRACE then Some(Decoded([first.value.value], rest[1..]))
      else if rest[0] != COMMA then None
      else
        var more := DecodeFields(rest[1..]);
        if more == None then None else Some(Decoded([first.value.value] + more.value.value, more.value.rest))
  }

  // ---- strings --------------------------------------------------------------------------

  lemma Nibbles(u: Unit)
    ensures u / 4096 < 16 && u == u / 4096 * 4096 + u / 256 % 16 * 256 + u / 16 % 16 * 16 + u % 16
  {
    var q := u / 16;
    assert u / 256 == q / 16 && u / 4096 == q / 16 / 16;
  }

  lemma DigitRoundTrip(d: int)
    requires 0 <= d < 16
    ensures HexValue(HexDigit(d)) == Some(d)
  {}

  lemma HexRoundTrip(u: Unit)
    ensures DecodeHex(UnicodeEscape(u)[2..]) == Some(u)
  {
    Nibbles(u);
    var a, b, c, d := u / 4096, u / 256 % 16, u / 16 % 16, u % 16;
    DigitRoundTrip(a); DigitRoundTrip(b); DigitRoundTrip(c); DigitRoundTrip(d);
    hide HexDigit, HexValue;
    var t := UnicodeEscape(u)[2..];
    assert t == [HexDigit(a), HexDigit(b), HexDigit(c), HexDigit(d)];
  }

  lemma ReadsUnicodeEscape(u: Unit, t: Text)
    requires |t| >= 6 && t[0] == BACKSLASH && t[1] == LETTER_U && DecodeHex(t[2..6]) == Some(u)
    ensures DecodeString(t) == Prepend(u, DecodeString(t[6..]))
  {
    hide DecodeHex;
  }

  lemma ReadsShortEscape(u: Unit, t: Text)
    requires |t| >= 2 && t[0] == BACKSLASH && t[1] != LETTER_U && Unescaped(t[1]) == Some(u)
    ensures DecodeString(t) == Prepend(u, DecodeString(t[2..]))
  {
    hide DecodeHex;
  }

  /** The three forms of a printed unit. */
  lemma EscapeForms(u: Unit)
    ensures var e := EscapeUnit(u);
            || (e == UnicodeEscape(u) && |e| == 6 && e[0] == BACKSLASH && e[1] == LETTER_U)
            || (|e| == 2 && e[0] == BACKSLASH && e[1] != LETTER_U && Unescaped(e[1]) == Some(u))
            || (e == [u] && u != QUOTE && u != BACKSLASH)
  {}

  /** A lower-case hexadecimal digit: 0-9 or a-f. */
  ghost predicate Hex(c: Unit, d: int) {
    if 0 <= d < 10 then c == '0' as int + d else 10 <= d < 16 && c == 'a' as int + d - 10
  }

  /** What is printed for a unit that is no half of a pair: the two-character escapes where there are
      some, lower-case hexadecimal ones for other control characters and for single surrogates, and
      otherwise the unit itself. */
  lemma EscapeTable(u: Unit)
    ensures var e := EscapeUnit(u);
            && (u == '\"' as int ==> e == ['\\' as int, '\"' as int])
            && (u == '\\' as int ==> e == ['\\' as int, '\\' as int])
            && (u == 8 ==> e == ['\\' as int, 'b' as int])
            && (u == '\t' as int ==> e == ['\\' as int, 't' as int])
            && (u == '\n' as int ==> e == ['\\' as int, 'n' as int])
            && (u == 12 ==> e == ['\\' as int, 'f' as int])
            && (u == '\r' as int ==> e == ['\\' as int, 'r' as int])
            && ((u < 32 && u !in {8, 9, 10, 12, 13}) || 0xd800 <= u <= 0xdfff ==>
                  && |e| == 6 && e[..2] == ['\\' as int, 'u' as int]
                  && Hex(e[2], u / 4096) && Hex(e[3], u / 256 % 16) && Hex(e[4], u / 16 % 16) && Hex(e[5], u % 16))
            && (u >= 32 && u != 34 && u != 92 && !(0xd800 <= u <= 0xdfff) ==> e == [u])
  {}

  /** Decoding one printed unit. */
  lemma UnitRoundTrip(u: Unit, more: Text)
    ensures DecodeString(EscapeUnit(u) + more) == Prepend(u, DecodeString(more))
  {
    EscapeForms(u);
    HexRoundTrip(u);
    var e := EscapeUnit(u);
    var t := e + more;
    hide DecodeString, DecodeHex, EscapeUnit, UnicodeEscape, Unescaped, Prepend;
    if |e| == 6 {
      assert t[2..6] == e[2..] && t[6..] == more;
      ReadsUnicodeEscape(u, t);
    } else if |e| == 2 {
      assert t[2..] == more;
      ReadsShortEscape(u, t);
    } else {
      LiteralRoundTrip(u, more);
    }
  }

  lemma LiteralRoundTrip(u: Unit, more: Text)
    requires u != QUOTE && u != BACKSLASH
    ensures DecodeString([u] + more) == Prepend(u, DecodeString(more))
  {
    hide DecodeHex, Unescaped;
    assert ([u] + more)[1..] == more;
  }

  lemma Assoc(a: Text, b: Text, c: Text)
    ensures (a + b) + c == a + (b + c)
  {}

  lemma {:induction false} StringRoundTrip(s: Text, rest: Text)
    ensures DecodeString(Escaped(s) + ([QUOTE] + rest)) == Some(Decoded(s, rest))
  {
    if s == [] {
      NothingRoundTrip(rest);
    } else if StartsPair(s) {
      StringRoundTrip(s[2..], rest);
      PairMore(s, rest);
    } else {
      StringRoundTrip(s[1..], rest);
      UnitMore(s, rest);
    }
  }

  lemma NothingRoundTrip(rest: Text)
    ensures DecodeString(Escaped([]) + ([QUOTE] + rest)) == Some(Decoded([], rest))
  {
    assert Escaped([]) + ([QUOTE] + rest) == [QUOTE] + rest && ([QUOTE] + rest)[1..] == rest;
  }

  lemma PairMore(s: Text, rest: Text)
    requires StartsPair(s) && DecodeString(Escaped(s[2..]) + ([QUOTE] + rest)) == Some(Decoded(s[2..], rest))
    ensures DecodeString(Escaped(s) + ([QUOTE] + rest)) == Some(Decoded(s, rest))
  {
    hide DecodeString;
    var end := [QUOTE] + rest;
    var more := Escaped(s[2..]) + end;
    LiteralRoundTrip(s[1], more);
    LiteralRoundTrip(s[0], [s[1]] + more);
    Assoc([s[0], s[1]], Escaped(s[2..]), end);
    assert [s[0], s[1]] + more == [s[0]] + ([s[1]] + more);
    assert [s[0]] + ([s[1]] + s[2..]) == s;
  }

  lemma UnitMore(s: Text, rest: Text)
    requires s != [] && !StartsPair(s)
    requires DecodeString(Escaped(s[1..]) + ([QUOTE] + rest)) == Some(Decoded(s[1..], rest))
    ensures DecodeString(Escaped(s) + ([QUOTE] + rest)) == Some(Decoded(s, rest))
  {
    hide DecodeString, EscapeUnit, StartsPair;
    var end := [QUOTE] + rest;
    var more := Escaped(s[1..]) + end;
    UnitRoundTrip(s[0], more);
    Assoc(EscapeUnit(s[0]), Escaped(s[1..]), end);
    assert [s[0]] + s[1..] == s;
  }

  // ---- sorting --------------------------------------------------------------------------

  lemma {:induction false} BeforeTotal(a: Text, b: Text)
    ensures !(Before(a, b) && Before(b, a)) && !Before(a, a)
    ensures a == b || Before(a, b) || Before(b, a)
  {
    if a != [] && b != [] {
      BeforeTotal(a[1..], b[1..]);
      if a[0] == b[0] && a[1..] == b[1..] { assert a == [a[0]] + a[1..] && b == [b[0]] + b[1..]; }
    }
    if a != [] { BeforeTotal(a[1..], a[1..]); }
  }

  lemma {:induction false} BeforeTransitive(a: Text, b: Text, c: Text)
    requires Before(a, b) && Before(b, c)
    ensures Before(a, c)
  {
    if a != [] && a[0] == b[0] == c[0] { BeforeTransitive(a[1..], b[1..], c[1..]); }
  }

  ghost predicate Ascending<T>(fields: seq<Field<T>>) {
    forall i, j :: 0 <= i < j < |fields| ==> Before(fields[i].key, fields[j].key)
  }

  lemma MemberTail<T>(a: seq<T>, g: T)
    requires a != []
    ensures g in a <==> g == a[0] || g in a[1..]
  {
    assert a == [a[0]] + a[1..];
  }

  lemma {:induction false} InsertElements<T>(f: Field<T>, fields: seq<Field<T>>, g: Field<T>)
    ensures g in Insert(f, fields) <==> g == f || g in fields
  {
    MemberTail(Insert(f, fields), g);
    if fields != [] && !Before(f.key, fields[0].key) {
      InsertElements(f, fields[1..], g);
      MemberTail(fields, g);
      assert Insert(f, fields)[1..] == Insert(f, fields[1..]);
    } else {
      assert Insert(f, fields)[1..] == fields;
    }
  }

  lemma {:induction false} SortElements<T>(fields: seq<Field<T>>, g: Field<T>)
    ensures g in Sort(fields) <==> g in fields
  {
    if fields != [] {
      SortElements(fields[1..], g);
      InsertElements(fields[0], Sort(fields[1..]), g);
      MemberTail(fields, g);
    }
  }

  lemma LaterBefore<T>(fields: seq<Field<T>>, g: Field<T>)
    requires fields != [] && Ascending(fields) && g in fields[1..]
    ensures Before(fields[0].key, g.key)
  {
    var rest := fields[1..];
    var k :| 0 <= k < |rest| && rest[k] == g;
    assert fields[k + 1] == g;
  }

  lemma LaterDistinct<T>(fields: seq<Field<T>>, g: Field<T>)
    requires fields != [] && DistinctKeys(fields) && g in fields[1..]
    ensures g.key != fields[0].key
  {
    var rest := fields[1..];
    var k :| 0 <= k < |rest| && rest[k] == g;
    assert fields[k + 1] == g;
  }

  lemma {:induction false} InsertAscending<T>(f: Field<T>, fields: seq<Field<T>>)
    requires Ascending(fields) && forall g :: g in fields ==> g.key != f.key
    ensures Ascending(Insert(f, fields))
  {
    if fields == [] {
    } else if Before(f.key, fields[0].key) {
      forall j | 0 <= j < |fields| ensures Before(f.key, fields[j].key) {
        if j > 0 { BeforeTransitive(f.key, fields[0].key, fields[j].key); }
      }
    } else {
      var rest := Insert(f, fields[1..]);
      InsertAscending(f, fields[1..]);
      forall j | 0 <= j < |rest| ensures Before(fields[0].key, rest[j].key) {
        var g := rest[j];
        assert g in Insert(f, fields[1..]);
        InsertElements(f, fields[1..], g);
        if g == f {
          assert fields[0] in fields;
          BeforeTotal(f.key, fields[0].key);
        } else {
          assert g in fields[1..];
          LaterBefore(fields, g);
        }
      }
    }
  }

  /** a comes first by code units: it is shorter and b goes on, or it has the smaller unit where they
      first differ. */
  ghost predicate FirstByUnits(a: Text, b: Text) {
    exists n :: 0 <= n <= |a| && n < |b| && a[..n] == b[..n] && (n < |a| ==> a[n] < b[n])
  }

  lemma {:induction false} BeforeIff(a: Text, b: Text)
    ensures Before(a, b) <==> FirstByUnits(a, b)
  {
    if Before(a, b) {
      if a == [] || a[0] < b[0] {
        assert a[..0] == b[..0];
      } else {
        BeforeIff(a[1..], b[1..]);
        var n :| 0 <= n <= |a| - 1 && n < |b| - 1 && a[1..][..n] == b[1..][..n]
          && (n < |a| - 1 ==> a[1..][n] < b[1..][n]);
        assert a[..n + 1] == [a[0]] + a[1..][..n] && b[..n + 1] == [b[0]] + b[1..][..n];
      }
    }
    if FirstByUnits(a, b) {
      var n :| 0 <= n <= |a| && n < |b| && a[..n] == b[..n] && (n < |a| ==> a[n] < b[n]);
      if n > 0 {
        assert a[..n][0] == b[..n][0] && a[1..][..n - 1] == a[..n][1..] && b[1..][..n - 1] == b[..n][1..];
        assert FirstByUnits(a[1..], b[1..]);
        BeforeIff(a[1..], b[1..]);
      }
    }
  }

  lemma {:induction false} SortAscending<T>(fields: seq<Field<T>>)
    requires DistinctKeys(fields)
    ensures Ascending(Sort(fields))
  {
    if fields != [] {
      SortAscending(fields[1..]);
      forall g | g in Sort(fields[1..]) ensures g.key != fields[0].key {
        SortElements(fields[1..], g);
        LaterDistinct(fields, g);
      }
      InsertAscending(fields[0], Sort(fields[1..]));
    }
  }

  lemma HasElement<T>(a: seq<T>)
    ensures a == [] || exists f :: f in a
  {
    if a != [] { assert a[0] in a; }
  }

  lemma NoElements<T>(a: seq<T>, b: seq<T>)
    requires (a == [] || b == []) && forall f :: f in a <==> f in b
    ensures a == b
  {
    HasElement(a);
    HasElement(b);
  }

  /** Only one list in ascending order has given elements. */
  lemma {:induction false} AscendingUnique<T>(a: seq<Field<T>>, b: seq<Field<T>>)
    requires Ascending(a) && Ascending(b) && forall f :: f in a <==> f in b
    ensures a == b
  {
    if a == [] || b == [] {
      NoElements(a, b);
    } else {
      SameHead(a, b);
      forall f | f in a[1..] ensures f in b[1..] { TailMember(a, b, f); }
      forall f | f in b[1..] ensures f in a[1..] { TailMember(b, a, f); }
      AscendingUnique(a[1..], b[1..]);
      assert a == [a[0]] + a[1..] && b == [b[0]] + b[1..];
    }
  }

  lemma SameHead<T>(a: seq<Field<T>>, b: seq<Field<T>>)
    requires a != [] && b != [] && Ascending(a) && Ascending(b) && forall f :: f in a <==> f in b
    ensures a[0] == b[0]
  {
    assert a[0] in a && b[0] in b;
    var i :| 0 <= i < |b| && b[i] == a[0];
    var j :| 0 <= j < |a| && a[j] == b[0];
    if i > 0 && j > 0 { BeforeTotal(a[0].key, b[0].key); }
  }

  lemma TailMember<T>(a: seq<Field<T>>, b: seq<Field<T>>, f: Field<T>)
    requires a != [] && b != [] && a[0] == b[0] && Ascending(a) && f in a[1..] && f in b
    ensures f in b[1..]
  {
    var i :| 0 <= i < |a| - 1 && a[1..][i] == f;
    assert Before(a[0].key, a[i + 1].key);
    BeforeTotal(f.key, f.key);
    assert b == [b[0]] + b[1..];
  }

  /** Sorting forgets exactly the order. */
  lemma SortSame<T>(a: seq<Field<T>>, b: seq<Field<T>>)
    requires DistinctKeys(a) && DistinctKeys(b)
    ensures Sort(a) == Sort(b) <==> forall f :: f in a <==> f in b
  {
    forall f ensures (f in Sort(a) <==> f in a) && (f in Sort(b) <==> f in b) {
      SortElements(a, f);
      SortElements(b, f);
    }
    if forall f :: f in a <==> f in b {
      SortAscending(a);
      SortAscending(b);
      AscendingUnique(Sort(a), Sort(b));
    }
    if Sort(a) == Sort(b) {
      forall f ensures f in a <==> f in b {
        assert f in Sort(a) <==> f in Sort(b);
      }
    }
  }

  // ---- the round trip -------------------------------------------------------------------

  predicate Stops(rest: Text) { rest == [] || !NumberUnit(rest[0]) }

  /** The text decodes to the value, whatever follows it. */
  ghost predicate Reads(t: Text, v: Json) {
    forall rest | Stops(rest) :: Decode(t + rest) == Some(Decoded(v, rest))
  }

  ghost predicate ReadFields(texts: seq<Field<Text>>, values: seq<Field<Json>>) {
    |texts| == |values| && forall i :: 0 <= i < |texts| ==>
      texts[i].key == values[i].key && Reads(texts[i].value, values[i].value)
  }

  ghost predicate ReadItems(texts: seq<Text>, values: seq<Json>) {
    |texts| == |values| && forall i :: 0 <= i < |texts| ==> Reads(texts[i], values[i])
  }

  lemma {:induction false} InsertParallel(f: Field<Text>, texts: seq<Field<Text>>, g: Field<Json>,
                                          values: seq<Field<Json>>)
    requires ReadFields(texts, values) && f.key == g.key && Reads(f.value, g.value)
    ensures ReadFields(Insert(f, texts), Insert(g, values))
  {
    hide Reads, Before;
    if texts != [] && !Before(f.key, texts[0].key) { InsertParallel(f, texts[1..], g, values[1..]); }
  }

  lemma {:induction false} SortParallel(texts: seq<Field<Text>>, values: seq<Field<Json>>)
    requires ReadFields(texts, values)
    ensures ReadFields(Sort(texts), Sort(values))
  {
    hide Reads;
    if texts != [] {
      SortParallel(texts[1..], values[1..]);
      InsertParallel(texts[0], Sort(texts[1..]), values[0], Sort(values[1..]));
    }
  }

  lemma {:induction false} NumberRun(t: Text, rest: Text)
    requires (forall i :: 0 <= i < |t| ==> NumberUnit(t[i])) && Stops(rest)
    ensures NumberLength(t + rest) == |t|
  {
    if t == [] {
      assert t + rest == rest;
    } else {
      assert (t + rest)[1..] == t[1..] + rest;
      NumberRun(t[1..], rest);
    }
  }

  lemma NoPrefix(t: Text, prefix: Text)
    requires t != [] && prefix != []
    ensures t[0] != prefix[0] ==> !StartsWith(t, prefix)
  {
    if |t| >= |prefix| { assert t[..|prefix|][0] == t[0]; }
  }

  lemma ReadsNumber(literal: Text)
    requires NumberText(literal)
    ensures Reads(literal, Number(literal))
  {
    forall rest | Stops(rest) ensures Decode(literal + rest) == Some(Decoded(Number(literal), rest)) {
      var t := literal + rest;
      NumberRun(literal, rest);
      assert t[..|literal|] == literal && t[|literal|..] == rest;
      assert t[0] == literal[0];
      NoPrefix(t, NULL); NoPrefix(t, TRUE); NoPrefix(t, FALSE);
    }
  }

  lemma ReadsString(text: Text)
    ensures Reads(Quoted(text), Str(text))
  {
    forall rest | Stops(rest) ensures Decode(Quoted(text) + rest) == Some(Decoded(Str(text), rest)) {
      StringRoundTrip(text, rest);
      QuotedThen(text, rest);
    }
  }

  lemma QuotedThen(text: Text, rest: Text)
    ensures (Quoted(text) + rest)[0] == QUOTE && (Quoted(text) + rest)[1..] == Escaped(text) + ([QUOTE] + rest)
  {
    hide Escaped;
    assert Quoted(text) + rest == [QUOTE] + (Escaped(text) + ([QUOTE] + rest));
  }

  lemma ReadsConstant(v: Json)
    requires v.Null? || v.Boolean?
    ensures Reads(Canon(v), v)
  {
    forall rest | Stops(rest) ensures Decode(Canon(v) + rest) == Some(Decoded(v, rest)) {
      var t := Canon(v) + rest;
      var n := |Canon(v)|;
      assert t[..n] == Canon(v) && t[n..] == rest;
      assert t[0] == Canon(v)[0];
      NoPrefix(t, NULL); NoPrefix(t, TRUE); NoPrefix(t, FALSE);
    }
  }

  lemma ItemsSplit(texts: seq<Text>, rest: Text)
    requires texts != []
    ensures |texts| == 1 ==> JoinTexts(texts) + ([CLOSE] + rest) == texts[0] + ([CLOSE] + rest)
    ensures |texts| > 1 ==>
              JoinTexts(texts) + ([CLOSE] + rest) == texts[0] + ([COMMA] + (JoinTexts(texts[1..]) + ([CLOSE] + rest)))
  {
    if |texts| > 1 {
      var more, end := JoinTexts(texts[1..]), [CLOSE] + rest;
      assert JoinTexts(texts) == texts[0] + [COMMA] + more;
      hide JoinTexts;
      Assoc(texts[0] + [COMMA], more, end);
      Assoc(texts[0], [COMMA], more + end);
    }
  }

  lemma {:induction false} ReadsItems(texts: seq<Text>, values: seq<Json>, rest: Text)
    requires ReadItems(texts, values) && texts != []
    ensures DecodeItems(JoinTexts(texts) + ([CLOSE] + rest)) == Some(Decoded(values, rest))
  {
    hide Decode, DecodeItems, JoinTexts, Stops;
    ItemsSplit(texts, rest);
    var close := [CLOSE] + rest;
    if |texts| == 1 {
      ReadsAt(texts[0], values[0], close);
      assert close[1..] == rest && values == [values[0]];
      OneItem(texts[0] + close, values[0], close);
    } else {
      var next := JoinTexts(texts[1..]) + close;
      ReadsItems(texts[1..], values[1..], rest);
      ReadsAt(texts[0], values[0], [COMMA] + next);
      assert ([COMMA] + next)[1..] == next && values == [values[0]] + values[1..];
      MoreItems(texts[0] + ([COMMA] + next), values[0], [COMMA] + next, values[1..], rest);
    }
  }

  lemma ReadsAt(t: Text, v: Json, after: Text)
    requires Reads(t, v) && after != [] && (after[0] == CLOSE || after[0] == COMMA)
    ensures Decode(t + after) == Some(Decoded(v, after))
  {
    hide Decode;
    assert Stops(after);
  }

  lemma OneItem(t: Text, v: Json, after: Text)
    requires Decode(t) == Some(Decoded(v, after)) && after != [] && after[0] == CLOSE
    ensures DecodeItems(t) == Some(Decoded([v], after[1..]))
  {
    hide Decode;
  }

  lemma MoreItems(t: Text, v: Json, after: Text, more: seq<Json>, rest: Text)
    requires Decode(t) == Some(Decoded(v, after)) && after != [] && after[0] == COMMA
    requires DecodeItems(after[1..]) == Some(Decoded(more, rest))
    ensures DecodeItems(t) == Some(Decoded([v] + more, rest))
  {
    hide Decode;
  }

  lemma ReadsField(f: Field<Text>, g: Field<Json>, after: Text)
    requires f.key == g.key && Reads(f.value, g.value) && Stops(after)
    ensures DecodeField(Quoted(f.key) + [COLON] + f.value + after) == Some(Decoded(g, after))
  {
    hide Escaped, Quoted, DecodeString;
    var tail := [COLON] + (f.value + after);
    assert Quoted(f.key) + [COLON] + f.value + after == Quoted(f.key) + tail;
    StringRoundTrip(f.key, tail);
    QuotedThen(f.key, tail);
    assert tail[1..] == f.value + after;
  }

  lemma FieldsSplit(fields: seq<Field<Text>>, rest: Text)
    requires fields != []
    ensures var first := Quoted(fields[0].key) + [COLON] + fields[0].value;
            var next := if |fields| == 1 then [] else [COMMA] + JoinFields(fields[1..]);
            JoinFields(fields) + ([CLOSE_BRACE] + rest) == first + (next + ([CLOSE_BRACE] + rest))
  {
    var first := Quoted(fields[0].key) + [COLON] + fields[0].value;
    var next := if |fields| == 1 then [] else [COMMA] + JoinFields(fields[1..]);
    JoinSplit(fields, first, next);
    hide Quoted, JoinFields;
    Assoc(first, next, [CLOSE_BRACE] + rest);
  }

  lemma JoinSplit(fields: seq<Field<Text>>, first: Text, next: Text)
    requires fields != [] && first == Quoted(fields[0].key) + [COLON] + fields[0].value
    requires next == if |fields| == 1 then [] else [COMMA] + JoinFields(fields[1..])
    ensures JoinFields(fields) == first + next
  {
    hide Quoted;
  }

  lemma OneField(t: Text, f: Field<Json>, rest: Text)
    requires DecodeField(t) == Some(Decoded(f, [CLOSE_BRACE] + rest))
    ensures DecodeFields(t) == Some(Decoded([f], rest))
  {
    assert ([CLOSE_BRACE] + rest)[1..] == rest;
  }

  lemma MoreFields(t: Text, f: Field<Json>, next: Text, fields: seq<Field<Json>>, rest: Text)
    requires DecodeField(t) == Some(Decoded(f, [COMMA] + next)) && DecodeFields(next) == Some(Decoded(fields, rest))
    ensures DecodeFields(t) == Some(Decoded([f] + fields, rest))
  {
    assert ([COMMA] + next)[1..] == next;
  }

  lemma {:induction false} ReadsFields(texts: seq<Field<Text>>, values: seq<Field<Json>>, rest: Text)
    requires ReadFields(texts, values) && texts != []
    ensures DecodeFields(JoinFields(texts) + ([CLOSE_BRACE] + rest)) == Some(Decoded(values, rest))
  {
    hide Reads, Quoted, DecodeFields, DecodeField;
    FieldsSplit(texts, rest);
    var t, close := JoinFields(texts) + ([CLOSE_BRACE] + rest), [CLOSE_BRACE] + rest;
    if |texts| == 1 {
      ReadsField(texts[0], values[0], close);
      assert [] + close == close;
      OneField(t, values[0], rest);
      assert values == [values[0]];
    } else {
      ReadsFields(texts[1..], values[1..], rest);
      var next := JoinFields(texts[1..]) + close;
      ReadsField(texts[0], values[0], [COMMA] + next);
      Assoc([COMMA], JoinFields(texts[1..]), close);
      MoreFields(t, values[0], next, values[1..], rest);
      assert values == [values[0]] + values[1..];
    }
  }

  /** No value's text starts like the end of an array. */
  lemma CanonStart(v: Json)
    requires IsJson(v)
    ensures Canon(v) != [] && Canon(v)[0] != CLOSE
  {}

  lemma JoinStart(texts: seq<Text>)
    requires texts != [] && texts[0] != []
    ensures JoinTexts(texts) != [] && JoinTexts(texts)[0] == texts[0][0]
  {}

  lemma JoinFieldsStart(fields: seq<Field<Text>>)
    requires fields != []
    ensures JoinFields(fields) != [] && JoinFields(fields)[0] == QUOTE
  {}

  lemma DecodesArr(texts: seq<Text>, values: seq<Json>, rest: Text)
    requires ReadItems(texts, values) && (texts != [] ==> texts[0] != [] && texts[0][0] != CLOSE)
    ensures Decode([OPEN] + (JoinTexts(texts) + ([CLOSE] + rest))) == Some(Decoded(Arr(values), rest))
  {
    var inner := JoinTexts(texts) + ([CLOSE] + rest);
    var t := [OPEN] + inner;
    assert t[1..] == inner && t[1] == inner[0];
    if texts == [] {
      assert inner == [CLOSE] + rest;
      assert t[2..] == rest;
    } else {
      JoinStart(texts);
      ReadsItems(texts, values, rest);
      hide DecodeItems, JoinTexts, ReadItems;
      assert inner[0] != CLOSE;
    }
  }

  lemma DecodesObj(texts: seq<Field<Text>>, values: seq<Field<Json>>, rest: Text)
    requires ReadFields(texts, values)
    ensures Decode([OPEN_BRACE] + (JoinFields(texts) + ([CLOSE_BRACE] + rest))) == Some(Decoded(Obj(values), rest))
  {
    var inner := JoinFields(texts) + ([CLOSE_BRACE] + rest);
    var t := [OPEN_BRACE] + inner;
    assert t[1..] == inner && t[1] == inner[0];
    if texts == [] {
      assert inner == [CLOSE_BRACE] + rest;
      assert t[2..] == rest;
    } else {
      JoinFieldsStart(texts);
      ReadsFields(texts, values, rest);
      hide DecodeFields, JoinFields, ReadFields;
      assert inner[0] == QUOTE;
    }
  }

  lemma Bracketed(open: Unit, inner: Text, close: Unit, rest: Text)
    ensures [open] + inner + [close] + rest == [open] + (inner + ([close] + rest))
  {}

  lemma ReadsArr(texts: seq<Text>, values: seq<Json>)
    requires ReadItems(texts, values) && (texts != [] ==> texts[0] != [] && texts[0][0] != CLOSE)
    ensures Reads([OPEN] + JoinTexts(texts) + [CLOSE], Arr(values))
  {
    hide Decode, JoinTexts, ReadItems;
    forall rest | Stops(rest)
      ensures Decode([OPEN] + JoinTexts(texts) + [CLOSE] + rest) == Some(Decoded(Arr(values), rest))
    {
      Bracketed(OPEN, JoinTexts(texts), CLOSE, rest);
      DecodesArr(texts, values, rest);
    }
  }

  lemma ReadsObj(texts: seq<Field<Text>>, values: seq<Field<Json>>)
    requires ReadFields(texts, values)
    ensures Reads([OPEN_BRACE] + JoinFields(texts) + [CLOSE_BRACE], Obj(values))
  {
    hide Decode, JoinFields, ReadFields;
    forall rest | Stops(rest)
      ensures Decode([OPEN_BRACE] + JoinFields(texts) + [CLOSE_BRACE] + rest) == Some(Decoded(Obj(values), rest))
    {
      Bracketed(OPEN_BRACE, JoinFields(texts), CLOSE_BRACE, rest);
      DecodesObj(texts, values, rest);
    }
  }

  lemma CanonAt(items: seq<Json>)
    ensures |CanonItems(items)| == |NormalItems(items)| == |items|
    ensures forall i ::
              0 <= i < |items| ==> CanonItems(items)[i] == Canon(items[i]) && NormalItems(items)[i] == Normal(items[i])
  {
    if items != [] { CanonAt(items[1..]); }
  }

  lemma CanonFieldAt(fields: seq<Field<Json>>)
    ensures |CanonFields(fields)| == |NormalFields(fields)| == |fields|
    ensures forall i :: 0 <= i < |fields| ==> CanonFields(fields)[i] == Field(fields[i].key, Canon(fields[i].value))
    ensures forall i :: 0 <= i < |fields| ==> NormalFields(fields)[i] == Field(fields[i].key, Normal(fields[i].value))
  {
    if fields != [] { CanonFieldAt(fields[1..]); }
  }

  /** In every object of v, at any depth, the keys ascend by code units. */
  ghost predicate KeysAscend(v: Json) {
    match v
    case Arr(items) => forall i :: 0 <= i < |items| ==> KeysAscend(items[i])
    case Obj(fields) =>
      && (forall i, j :: 0 <= i < j < |fields| ==> FirstByUnits(fields[i].key, fields[j].key))
      && (forall i :: 0 <= i < |fields| ==> KeysAscend(fields[i].value))
    case _ => true
  }

  /** What is printed, and read back, has the keys of every object in that order. */
  lemma {:induction false} NormalAscends(v: Json)
    requires IsJson(v)
    ensures KeysAscend(Normal(v))
  {
    match v
    case Arr(items) =>
      CanonAt(items);
      forall i | 0 <= i < |items| ensures KeysAscend(NormalItems(items)[i]) { NormalAscends(items[i]); }
    case Obj(fields) =>
      CanonFieldAt(fields);
      var all := NormalFields(fields);
      SortAscending(all);
      hide Before, IsJson, FirstByUnits;
      forall i | 0 <= i < |Sort(all)| ensures KeysAscend(Sort(all)[i].value) {
        SortElements(all, Sort(all)[i]);
        var j :| 0 <= j < |all| && all[j] == Sort(all)[i];
        NormalAscends(fields[j].value);
      }
      forall i, j | 0 <= i < j < |Sort(all)| ensures FirstByUnits(Sort(all)[i].key, Sort(all)[j].key) {
        BeforeIff(Sort(all)[i].key, Sort(all)[j].key);
      }
    case _ =>
  }

  /** The decoder undoes the printer: what is read back is the value with its keys sorted. */
  lemma {:induction false} CanonRoundTrip(v: Json)
    requires IsJson(v)
    ensures Reads(Canon(v), Normal(v))
  {
    match v
    case Null => ReadsConstant(v);
    case Boolean(_) => ReadsConstant(v);
    case Number(literal) => ReadsNumber(literal);
    case Str(text) => ReadsString(text);
    case Arr(items) =>
      CanonAt(items);
      forall i | 0 <= i < |items| ensures Reads(CanonItems(items)[i], NormalItems(items)[i]) {
        CanonRoundTrip(items[i]);
      }
      if items != [] { CanonStart(items[0]); }
      hide Reads;
      ReadsArr(CanonItems(items), NormalItems(items));
    case Obj(fields) =>
      CanonFieldAt(fields);
      forall i | 0 <= i < |fields| ensures Reads(CanonFields(fields)[i].value, NormalFields(fields)[i].value) {
        CanonRoundTrip(fields[i].value);
      }
      hide Reads;
      SortParallel(CanonFields(fields), NormalFields(fields));
      ReadsObj(Sort(CanonFields(fields)), Sort(NormalFields(fields)));
  }

  // ---- equal up to key order ------------------------------------------------------------

  /** What a JSON value says: an object is the set of its fields. */
  datatype Value =
    | ConstantValue(v: Json)
    | ListValue(items: seq<Value>)
    | ObjectValue(fields: set<Field<Value>>)

  function Meaning(v: Json): Value {
    match v
    case Arr(items) => ListValue(MeaningItems(items))
    case Obj(fields) => ObjectValue(MeaningFields(fields))
    case _ => ConstantValue(v)
  }

  function MeaningItems(items: seq<Json>): seq<Value> {
    if items == [] then [] else [Meaning(items[0])] + MeaningItems(items[1..])
  }

  function MeaningFields(fields: seq<Field<Json>>): set<Field<Value>> {
    if fields == [] then {} else {Field(fields[0].key, Meaning(fields[0].value))} + MeaningFields(fields[1..])
  }

  lemma MeaningAt(items: seq<Json>)
    ensures |MeaningItems(items)| == |items|
    ensures forall i :: 0 <= i < |items| ==> MeaningItems(items)[i] == Meaning(items[i])
  {
    if items != [] { MeaningAt(items[1..]); }
  }

  lemma {:induction false} MeaningField(fields: seq<Field<Json>>, g: Field<Value>)
    ensures g in MeaningFields(fields) <==>
              exists i :: 0 <= i < |fields| && g == Field(fields[i].key, Meaning(fields[i].value))
  {
    if fields != [] {
      MeaningField(fields[1..], g);
      if i :| 0 <= i < |fields| && g == Field(fields[i].key, Meaning(fields[i].value)) {
        assert i > 0 ==> fields[1..][i - 1] == fields[i];
      }
      if g in MeaningFields(fields[1..]) {
        var i :| 0 <= i < |fields| - 1 && g == Field(fields[1..][i].key, Meaning(fields[1..][i].value));
        assert fields[i + 1] == fields[1..][i];
      }
    }
  }

  /** Two objects' fields correspond: same key, and the values mean the same. */
  ghost predicate Covers(a: seq<Field<Json>>, b: seq<Field<Json>>) {
    forall i :: 0 <= i < |a| ==> Covered(a[i], b)
  }

  ghost predicate Covered(f: Field<Json>, b: seq<Field<Json>>) {
    exists j :: 0 <= j < |b| && b[j].key == f.key && Meaning(b[j].value) == Meaning(f.value)
  }

  lemma CoversIsSubset(a: seq<Field<Json>>, b: seq<Field<Json>>)
    ensures Covers(a, b) <==> MeaningFields(a) <= MeaningFields(b)
  {
    if Covers(a, b) {
      forall g | g in MeaningFields(a) ensures g in MeaningFields(b) {
        MeaningField(a, g);
        var i :| 0 <= i < |a| && g == Field(a[i].key, Meaning(a[i].value));
        assert Covered(a[i], b);
        MeaningField(b, g);
      }
    }
    if MeaningFields(a) <= MeaningFields(b) {
      forall i | 0 <= i < |a| ensures Covered(a[i], b) {
        var g := Field(a[i].key, Meaning(a[i].value));
        MeaningField(a, g);
        MeaningField(b, g);
        var j :| 0 <= j < |b| && g == Field(b[j].key, Meaning(b[j].value));
      }
    }
  }

  /** The sorted form says the same as the value. */
  lemma {:induction false} NormalMeans(v: Json, w: Json)
    requires IsJson(v) && IsJson(w) && Normal(v) == Normal(w)
    ensures Meaning(v) == Meaning(w)
    decreases v, 1
  {
    if v.Arr? {
      NormalItemsMean(v.items, w.items);
    } else if v.Obj? {
      SameNormalFields(v.fields, w.fields);
      hide Normal, NormalFields, Covers;
      NormalFieldsCover(v.fields, w.fields);
      CoversIsSubset(v.fields, w.fields);
      CoversIsSubset(w.fields, v.fields);
    }
  }

  lemma SameNormalFields(a: seq<Field<Json>>, b: seq<Field<Json>>)
    requires IsJson(Obj(a)) && IsJson(Obj(b)) && Normal(Obj(a)) == Normal(Obj(b))
    ensures forall f :: f in NormalFields(a) <==> f in NormalFields(b)
  {
    CanonFieldAt(a);
    CanonFieldAt(b);
    SortSame(NormalFields(a), NormalFields(b));
  }

  lemma {:induction false} NormalItemsMean(a: seq<Json>, b: seq<Json>)
    requires (forall i :: 0 <= i < |a| ==> IsJson(a[i])) && (forall i :: 0 <= i < |b| ==> IsJson(b[i]))
    requires NormalItems(a) == NormalItems(b)
    ensures MeaningItems(a) == MeaningItems(b)
    decreases a, 0
  {
    CanonAt(a);
    CanonAt(b);
    if a != [] {
      assert NormalItems(a)[0] == NormalItems(b)[0] && NormalItems(a)[1..] == NormalItems(b)[1..];
      NormalMeans(a[0], b[0]);
      NormalItemsMean(a[1..], b[1..]);
    }
  }

  lemma {:induction false} NormalFieldsCover(a: seq<Field<Json>>, b: seq<Field<Json>>)
    requires (forall i :: 0 <= i < |a| ==> IsJson(a[i].value)) && (forall i :: 0 <= i < |b| ==> IsJson(b[i].value))
    requires forall f :: f in NormalFields(a) <==> f in NormalFields(b)
    ensures Covers(a, b) && Covers(b, a)
    decreases a, 0
  {
    CanonFieldAt(a);
    CanonFieldAt(b);
    hide Meaning, Normal, IsJson, NormalFields;
    var p, q := NormalFields(a), NormalFields(b);
    forall i | 0 <= i < |a| ensures Covered(a[i], b) {
      assert p[i] in q;
      var j :| 0 <= j < |q| && q[j] == p[i];
      NormalMeans(a[i].value, b[j].value);
    }
    forall j | 0 <= j < |b| ensures Covered(b[j], a) {
      assert q[j] in p;
      var i :| 0 <= i < |p| && p[i] == q[j];
      NormalMeans(a[i].value, b[j].value);
    }
  }

  /** Values that say the same are printed the same, whatever the order of their keys. */
  lemma {:induction false} MeaningPrints(v: Json, w: Json)
    requires IsJson(v) && IsJson(w) && Meaning(v) == Meaning(w)
    ensures Canon(v) == Canon(w)
    decreases v, 2
  {
    if v.Arr? {
      MeaningItemsPrint(v.items, w.items);
    } else if v.Obj? {
      CanonFieldAt(v.fields); CanonFieldAt(w.fields);
      CoversIsSubset(v.fields, w.fields);
      CoversIsSubset(w.fields, v.fields);
      hide Covers, Sort, JoinFields, IsJson;
      MeaningFieldsPrint(v.fields, w.fields);
      SortSame(CanonFields(v.fields), CanonFields(w.fields));
    }
  }

  lemma {:induction false} MeaningItemsPrint(a: seq<Json>, b: seq<Json>)
    requires (forall i :: 0 <= i < |a| ==> IsJson(a[i])) && (forall i :: 0 <= i < |b| ==> IsJson(b[i]))
    requires MeaningItems(a) == MeaningItems(b)
    ensures CanonItems(a) == CanonItems(b)
    decreases a, 0
  {
    MeaningAt(a);
    MeaningAt(b);
    if a != [] {
      assert MeaningItems(a)[0] == MeaningItems(b)[0] && MeaningItems(a)[1..] == MeaningItems(b)[1..];
      MeaningPrints(a[0], b[0]);
      MeaningItemsPrint(a[1..], b[1..]);
    }
  }

  lemma {:induction false} MeaningFieldsPrint(a: seq<Field<Json>>, b: seq<Field<Json>>)
    requires (forall i :: 0 <= i < |a| ==> IsJson(a[i].value)) && (forall i :: 0 <= i < |b| ==> IsJson(b[i].value))
    requires Covers(a, b) && Covers(b, a)
    ensures forall f :: f in CanonFields(a) <==> f in CanonFields(b)
    decreases a, 1
  {
    hide *;
    MeaningFieldsPrintForth(a, b);
    MeaningFieldsPrintBack(a, b);
  }

  lemma {:induction false} MeaningFieldsPrintForth(a: seq<Field<Json>>, b: seq<Field<Json>>)
    requires (forall i :: 0 <= i < |a| ==> IsJson(a[i].value)) && (forall i :: 0 <= i < |b| ==> IsJson(b[i].value))
    requires Covers(a, b)
    ensures forall f :: f in CanonFields(a) ==> f in CanonFields(b)
    decreases a, 0
  {
    CanonFieldAt(a);
    CanonFieldAt(b);
    hide Meaning, Canon, IsJson, CanonFields;
    var p, q := CanonFields(a), CanonFields(b);
    forall f | f in p ensures f in q {
      var i :| 0 <= i < |p| && p[i] == f;
      assert Covered(a[i], b);
      var j :| 0 <= j < |b| && b[j].key == a[i].key && Meaning(b[j].value) == Meaning(a[i].value);
      MeaningPrints(a[i].value, b[j].value);
      assert q[j] == f;
    }
  }

  lemma {:induction false} MeaningFieldsPrintBack(a: seq<Field<Json>>, b: seq<Field<Json>>)
    requires (forall i :: 0 <= i < |a| ==> IsJson(a[i].value)) && (forall i :: 0 <= i < |b| ==> IsJson(b[i].value))
    requires Covers(b, a)
    ensures forall f :: f in CanonFields(b) ==> f in CanonFields(a)
    decreases a, 0
  {
    CanonFieldAt(a);
    CanonFieldAt(b);
    hide Meaning, Canon, IsJson, CanonFields;
    var p, q := CanonFields(a), CanonFields(b);
    forall f | f in q ensures f in p {
      var j :| 0 <= j < |q| && q[j] == f;
      assert Covered(b[j], a);
      var i :| 0 <= i < |a| && a[i].key == b[j].key && Meaning(a[i].value) == Meaning(b[j].value);
      MeaningPrints(a[i].value, b[j].value);
      assert p[i] == f;
    }
  }

  /** Canonical JSON is uniquely readable: two values have the same text exactly when they
      are equal up to the order of object keys. */
  lemma CanonUniquelyReadable(v: Json, w: Json)
    requires IsJson(v) && IsJson(w)
    ensures Canon(v) == Canon(w) <==> Meaning(v) == Meaning(w)
  {
    if Canon(v) == Canon(w) {
      CanonRoundTrip(v);
      CanonRoundTrip(w);
      assert Stops([]);
      assert Decode(Canon(v) + []) == Some(Decoded(Normal(v), []));
      assert Decode(Canon(w) + []) == Some(Decoded(Normal(w), []));
      NormalMeans(v, w);
    }
    if Meaning(v) == Meaning(w) { MeaningPrints(v, w); }
  }

  /** For any two values: both are refused, or both are printed and say the same, or the
      fragments differ. */
  lemma FragmentTells(v: Json, w: Json)
    ensures CanonicalFragment(v) == CanonicalFragment(w) <==>
              (IsJson(v) <==> IsJson(w)) && (IsJson(v) && IsJson(w) ==> Meaning(v) == Meaning(w))
  {
    hide IsJson, Canon, Meaning;
    if IsJson(v) && IsJson(w) { CanonUniquelyReadable(v, w); }
  }

  // ---- UTF-8 ----------------------------------------------------------------------------

  type Bytes = seq<int>

  /** UTF-8; half of a surrogate pair on its own becomes the replacement character. */
  function Utf8(t: Text): Bytes {
    if t == [] then []
    else if StartsPair(t) then Utf8Pair(t[0], t[1]) + Utf8(t[2..])
    else Utf8Unit(t[0]) + Utf8(t[1..])
  }

  function Utf8Pair(high: Unit, low: Unit): Bytes
    requires High(high) && Low(low)
  {
    var a, b := high - 0xd800, low - 0xdc00;
    [0xf0 + (a + 64) / 256, 0x80 + (a + 64) / 4 % 64, 0x80 + a % 4 * 16 + b / 64, 0x80 + b % 64]
  }

  function Utf8Unit(u: Unit): Bytes {
    if u < 0x80 then [u as int]
    else if u < 0x800 then [0xc0 + u / 64, 0x80 + u % 64]
    else if High(u) || Low(u) then [0xef, 0xbf, 0xbd]
    else [0xe0 + u / 4096, 0x80 + u / 64 % 64, 0x80 + u % 64]
  }

  /** The forms of UTF-8: the leading bits tell the length, and the other bits are the character's. */
  lemma Utf8Forms(u: Unit)
    requires !High(u) && !Low(u)
    ensures var b := Utf8Unit(u);
            && (u < 0x80 ==> b == [u as int])
            && (0x80 <= u < 0x800 ==>
                  |b| == 2 && b[0] / 32 == 6 && b[1] / 64 == 2 && b[0] % 32 * 64 + b[1] % 64 == u)
            && (0x800 <= u ==>
                  |b| == 3 && b[0] / 16 == 14 && b[1] / 64 == b[2] / 64 == 2 &&
                    b[0] % 16 * 4096 + b[1] % 64 * 64 + b[2] % 64 == u)
  {
    if u >= 0x800 { ThreeParts(u); }
  }

  lemma ThreeParts(u: int)
    requires 0 <= u < 0x1_0000
    ensures u == u / 4096 * 4096 + u / 64 % 64 * 64 + u % 64 && 0 <= u / 4096 < 16
  {
    assert u / 64 / 64 == u / 4096;
  }

  lemma Utf8PairForm(high: Unit, low: Unit)
    requires High(high) && Low(low)
    ensures var b, code := Utf8Pair(high, low), 0x1_0000 + (high - 0xd800) * 0x400 + (low - 0xdc00);
            && |b| == 4 && b[0] / 8 == 30 && b[1] / 64 == b[2] / 64 == b[3] / 64 == 2
            && b[0] % 8 * 262144 + b[1] % 64 * 4096 + b[2] % 64 * 64 + b[3] % 64 == code
  {
    var a, c := high - 0xd800, low - 0xdc00;
    HighDigits(a + 64);
    LowDigits(a % 4, c);
    assert (a + 64) % 4 == a % 4;
  }

  /** Eleven bits are three, six and two bits. */
  lemma HighDigits(a: int)
    requires 0 <= a < 2048
    ensures a == a / 256 * 256 + a / 4 % 64 * 4 + a % 4 && 0 <= a / 256 < 8
  {
    assert a / 4 / 64 == a / 256;
  }

  lemma LowDigits(a: int, c: int)
    requires 0 <= a < 4 && 0 <= c < 1024
    ensures 0 <= a * 16 + c / 64 < 64 && c == c / 64 * 64 + c % 64
  {}

  /** No half of a surrogate pair stands alone. */
  predicate WellPaired(t: Text) {
    t == [] || (if StartsPair(t) then WellPaired(t[2..]) else !High(t[0]) && !Low(t[0]) && WellPaired(t[1..]))
  }

  lemma {:induction false} WellPairedAppend(a: Text, b: Text)
    requires WellPaired(a) && WellPaired(b)
    ensures WellPaired(a + b)
  {
    if a == [] {
      assert a + b == b;
    } else if StartsPair(a) {
      assert (a + b)[2..] == a[2..] + b;
      WellPairedAppend(a[2..], b);
    } else {
      assert (a + b)[1..] == a[1..] + b;
      WellPairedAppend(a[1..], b);
    }
  }

  lemma {:induction false} PlainWellPaired(t: Text)
    requires forall i :: 0 <= i < |t| ==> !High(t[i]) && !Low(t[i])
    ensures WellPaired(t)
  {
    if t != [] { PlainWellPaired(t[1..]); }
  }

  lemma {:induction false} EscapedWellPaired(s: Text)
    ensures WellPaired(Escaped(s))
  {
    if s == [] {
    } else if StartsPair(s) {
      EscapedWellPaired(s[2..]);
      var t := Escaped(s);
      assert t[0] == s[0] && t[1] == s[1] && t[2..] == Escaped(s[2..]);
    } else {
      EscapedWellPaired(s[1..]);
      PlainWellPaired(EscapeUnit(s[0]));
      WellPairedAppend(EscapeUnit(s[0]), Escaped(s[1..]));
    }
  }

  lemma QuotedWellPaired(s: Text)
    ensures WellPaired(Quoted(s))
  {
    hide Escaped, WellPaired;
    EscapedWellPaired(s);
    PlainWellPaired([QUOTE]);
    WellPairedAppend([QUOTE], Escaped(s));
    WellPairedAppend([QUOTE] + Escaped(s), [QUOTE]);
  }

  lemma {:induction false} JoinWellPaired(texts: seq<Text>)
    requires forall i :: 0 <= i < |texts| ==> WellPaired(texts[i])
    ensures WellPaired(JoinTexts(texts))
  {
    if |texts| > 1 {
      JoinWellPaired(texts[1..]);
      PlainWellPaired([COMMA]);
      WellPairedAppend(texts[0], [COMMA]);
      WellPairedAppend(texts[0] + [COMMA], JoinTexts(texts[1..]));
    } else {
      assert WellPaired([]);
    }
  }

  lemma {:induction false} JoinFieldsWellPaired(fields: seq<Field<Text>>)
    requires forall i :: 0 <= i < |fields| ==> WellPaired(fields[i].value)
    ensures WellPaired(JoinFields(fields))
  {
    if fields == [] {
    } else {
      var first := Quoted(fields[0].key) + [COLON] + fields[0].value;
      assert WellPaired(first) by {
        hide WellPaired, Quoted;
        QuotedWellPaired(fields[0].key);
        PlainWellPaired([COLON]);
        WellPairedAppend(Quoted(fields[0].key), [COLON]);
        WellPairedAppend(Quoted(fields[0].key) + [COLON], fields[0].value);
      }
      if |fields| > 1 {
        JoinFieldsWellPaired(fields[1..]);
        hide WellPaired, Quoted;
        PlainWellPaired([COMMA]);
        WellPairedAppend(first, [COMMA]);
        WellPairedAppend(first + [COMMA], JoinFields(fields[1..]));
      }
    }
  }

  lemma BracketsWellPaired(open: Unit, inner: Text, close: Unit)
    requires WellPaired(inner) && !High(open) && !Low(open) && !High(close) && !Low(close)
    ensures WellPaired([open] + inner + [close])
  {
    PlainWellPaired([open]);
    PlainWellPaired([close]);
    hide WellPaired;
    WellPairedAppend([open], inner);
    WellPairedAppend([open] + inner, [close]);
  }

  /** The printed text can be encoded in UTF-8 without loss. */
  lemma {:induction false} CanonWellPaired(v: Json)
    requires IsJson(v)
    ensures WellPaired(Canon(v))
  {
    match v
    case Null => PlainWellPaired(NULL);
    case Boolean(flag) => PlainWellPaired(TRUE); PlainWellPaired(FALSE);
    case Number(literal) => PlainWellPaired(literal);
    case Str(text) => QuotedWellPaired(text);
    case Arr(items) =>
      CanonAt(items);
      forall i | 0 <= i < |items| ensures WellPaired(CanonItems(items)[i]) { CanonWellPaired(items[i]); }
      hide WellPaired;
      JoinWellPaired(CanonItems(items));
      BracketsWellPaired(OPEN, JoinTexts(CanonItems(items)), CLOSE);
    case Obj(fields) =>
      CanonFieldAt(fields);
      var texts := CanonFields(fields);
      forall i | 0 <= i < |fields| ensures WellPaired(texts[i].value) { CanonWellPaired(fields[i].value); }
      hide WellPaired;
      forall i | 0 <= i < |Sort(texts)| ensures WellPaired(Sort(texts)[i].value) {
        SortElements(texts, Sort(texts)[i]);
      }
      JoinFieldsWellPaired(Sort(texts));
      BracketsWellPaired(OPEN_BRACE, JoinFields(Sort(texts)), CLOSE_BRACE);
  }

  /** How many bytes a character has, read off its first byte. */
  function CharBytes(b: int): nat { if b < 0x80 then 1 else if b < 0xe0 then 2 else if b < 0xf0 then 3 else 4 }

  lemma UnitBytes(u: Unit, v: Unit)
    requires !High(u) && !Low(u) && !High(v) && !Low(v)
    ensures |Utf8Unit(u)| == CharBytes(Utf8Unit(u)[0]) <= 3
    ensures Utf8Unit(u) == Utf8Unit(v) ==> u == v
  {
    assert u == u / 4096 * 4096 + u / 64 % 64 * 64 + u % 64 by { assert u / 64 / 64 == u / 4096; }
    assert v == v / 4096 * 4096 + v / 64 % 64 * 64 + v % 64 by { assert v / 64 / 64 == v / 4096; }
    assert u == u / 64 * 64 + u % 64 && v == v / 64 * 64 + v % 64;
    if Utf8Unit(u) == Utf8Unit(v) {
      assert Utf8Unit(u)[0] == Utf8Unit(v)[0];
      if |Utf8Unit(u)| >= 2 { assert Utf8Unit(u)[1] == Utf8Unit(v)[1]; }
      if |Utf8Unit(u)| >= 3 { assert Utf8Unit(u)[2] == Utf8Unit(v)[2]; }
    }
  }

  lemma HighBits(a: int, c: int)
    requires 0 <= a < 1024 && 0 <= c < 1024
    requires (a + 64) / 256 == (c + 64) / 256 && (a + 64) / 4 % 64 == (c + 64) / 4 % 64 && a % 4 == c % 4
    ensures a == c
  {
    var x, y := (a + 64) / 4, (c + 64) / 4;
    assert (a + 64) / 256 == x / 64 && (c + 64) / 256 == y / 64;
    assert x == x / 64 * 64 + x % 64 && y == y / 64 * 64 + y % 64;
    assert x == y;
    assert (a + 64) % 4 == a % 4 && (c + 64) % 4 == c % 4;
    assert a + 64 == x * 4 + (a + 64) % 4 && c + 64 == y * 4 + (c + 64) % 4;
  }

  lemma MiddleBits(a: int, b: int, c: int, d: int)
    requires 0 <= b < 1024 && 0 <= d < 1024
    requires a % 4 * 16 + b / 64 == c % 4 * 16 + d / 64 && b % 64 == d % 64
    ensures a % 4 == c % 4 && b == d
  {
    assert b / 64 < 16 && d / 64 < 16;
  }

  lemma PairBytes(h: Unit, l: Unit, k: Unit, m: Unit)
    requires High(h) && Low(l) && High(k) && Low(m)
    ensures |Utf8Pair(h, l)| == CharBytes(Utf8Pair(h, l)[0]) == 4
    ensures Utf8Pair(h, l) == Utf8Pair(k, m) ==> h == k && l == m
  {
    if Utf8Pair(h, l) == Utf8Pair(k, m) {
      var p, q := Utf8Pair(h, l), Utf8Pair(k, m);
      assert p[0] == q[0] && p[1] == q[1] && p[2] == q[2] && p[3] == q[3];
      MiddleBits(h - 0xd800, l - 0xdc00, k - 0xd800, m - 0xdc00);
      HighBits(h - 0xd800, k - 0xd800);
    }
  }

  /** The first character's bytes and the rest. */
  function FirstLength(t: Text): nat { if StartsPair(t) then 2 else 1 }

  function FirstBytes(t: Text): Bytes
    requires t != []
  {
    if StartsPair(t) then Utf8Pair(t[0], t[1]) else Utf8Unit(t[0])
  }

  lemma FirstBytesDecide(s: Text, t: Text)
    requires s != [] && t != [] && WellPaired(s) && WellPaired(t)
    ensures |FirstBytes(s)| == CharBytes(FirstBytes(s)[0]) && |FirstBytes(t)| == CharBytes(FirstBytes(t)[0])
    ensures FirstBytes(s) == FirstBytes(t) ==>
              FirstLength(s) == FirstLength(t) && s[..FirstLength(s)] == t[..FirstLength(t)]
  {
    if StartsPair(s) { PairBytes(s[0], s[1], s[0], s[1]); } else { UnitBytes(s[0], s[0]); }
    if StartsPair(t) { PairBytes(t[0], t[1], t[0], t[1]); } else { UnitBytes(t[0], t[0]); }
    if StartsPair(s) && StartsPair(t) { PairBytes(s[0], s[1], t[0], t[1]); }
    if !StartsPair(s) && !StartsPair(t) { UnitBytes(s[0], t[0]); }
  }

  /** Encoding texts without lone surrogates loses nothing. */
  lemma {:induction false} Utf8Injective(s: Text, t: Text)
    requires WellPaired(s) && WellPaired(t) && Utf8(s) == Utf8(t)
    ensures s == t
    decreases |s|
  {
    if s == [] || t == [] {
      Utf8Nonempty(s);
      Utf8Nonempty(t);
    } else {
      FirstBytesDecide(s, t);
      var a, b := Utf8(s[FirstLength(s)..]), Utf8(t[FirstLength(t)..]);
      assert Utf8(s) == FirstBytes(s) + a && Utf8(t) == FirstBytes(t) + b;
      hide Utf8Unit, Utf8Pair, FirstBytes;
      assert FirstBytes(s)[0] == Utf8(s)[0] == FirstBytes(t)[0];
      var n := |FirstBytes(s)|;
      assert FirstBytes(s) == Utf8(s)[..n] == FirstBytes(t);
      assert a == Utf8(s)[n..] == b;
      Utf8Injective(s[FirstLength(s)..], t[FirstLength(t)..]);
      assert s == s[..FirstLength(s)] + s[FirstLength(s)..];
      assert t == t[..FirstLength(t)] + t[FirstLength(t)..];
    }
  }

  lemma Utf8Nonempty(t: Text)
    ensures t == [] <==> Utf8(t) == []
  {}

  // ---- the signed payload ---------------------------------------------------------------

  predicate AsciiText(s: string) { forall i :: 0 <= i < |s| ==> s[i] as int < 128 }

  function Ascii(s: string): (t: Text)
    ensures |t| == |s|
    ensures AsciiText(s) ==> forall i :: 0 <= i < |s| ==> t[i] == s[i] as int
  {
    seq<Unit>(|s|, i requires 0 <= i < |s| => s[i] as int % 0x1_0000)
  }

  const SIGNATURE_DOMAIN: Text := Ascii("premise/memory-envelope-signature/v2")

  const PAYLOAD_KEYS: seq<Text> := [Ascii("domain"), Ascii("envelope"), Ascii("signature")]

  const METADATA_KEYS: seq<Text> :=
    [Ascii("signatureId"), Ascii("signerId"), Ascii("keyId"), Ascii("algorithm"), Ascii("signedAt"),
     Ascii("evidenceId")]

  datatype Metadata = Metadata(
    signatureId: Text, signerId: Text, keyId: Text, algorithm: Text, signedAt: Text, evidenceId: Option<Text>)

  function MetadataFields(m: Metadata): seq<Field<Json>> {
    var required :=
      [ Field(METADATA_KEYS[0], Str(m.signatureId)),
        Field(METADATA_KEYS[1], Str(m.signerId)),
        Field(METADATA_KEYS[2], Str(m.keyId)),
        Field(METADATA_KEYS[3], Str(m.algorithm)),
        Field(METADATA_KEYS[4], Str(m.signedAt)) ];
    if m.evidenceId == None then required else required + [Field(METADATA_KEYS[5], Str(m.evidenceId.value))]
  }

  /** The envelope without its signatures. */
  function Unsigned(envelope: seq<Field<Json>>): seq<Field<Json>> {
    if envelope == [] then []
    else (if envelope[0].key == Ascii("signatures") then [] else [envelope[0]]) + Unsigned(envelope[1..])
  }

  function PayloadFields(unsigned: seq<Field<Json>>, m: Metadata): seq<Field<Json>> {
    [ Field(PAYLOAD_KEYS[0], Str(SIGNATURE_DOMAIN)),
      Field(PAYLOAD_KEYS[1], Obj(unsigned)),
      Field(PAYLOAD_KEYS[2], Obj(MetadataFields(m))) ]
  }

  /** The bytes that are signed and verified. */
  function SignedBytes(envelope: seq<Field<Json>>, m: Metadata): Bytes {
    Utf8(Canon(Obj(PayloadFields(Unsigned(envelope), m))))
  }

  /** Exactly the other fields, in their order. */
  lemma {:induction false} UnsignedMeaning(envelope: seq<Field<Json>>)
    ensures forall f :: f in Unsigned(envelope) <==> f in envelope && f.key != Ascii("signatures")
    ensures (forall i :: 0 <= i < |envelope| ==> envelope[i].key != Ascii("signatures")) ==>
              Unsigned(envelope) == envelope
  {
    hide Ascii;
    if envelope != [] {
      UnsignedMeaning(envelope[1..]);
      MemberTail(envelope, envelope[0]);
      assert envelope == [envelope[0]] + envelope[1..];
    }
  }

  lemma {:induction false} UnsignedJson(envelope: seq<Field<Json>>)
    requires IsJson(Obj(envelope))
    ensures IsJson(Obj(Unsigned(envelope)))
    ensures forall f :: f in Unsigned(envelope) ==> f in envelope
  {
    hide Ascii;
    if envelope != [] {
      var rest := envelope[1..];
      assert IsJson(Obj(rest));
      UnsignedJson(rest);
      forall f | f in Unsigned(rest) ensures f in envelope && f.key != envelope[0].key {
        var k :| 0 <= k < |rest| && rest[k] == f;
        assert envelope[k + 1] == f;
      }
    }
  }

  ghost predicate Distinct(keys: seq<Text>) {
    forall i, j :: 0 <= i < j < |keys| ==> keys[i] != keys[j]
  }

  lemma KeysAreDistinct()
    ensures Distinct(PAYLOAD_KEYS) && Distinct(METADATA_KEYS)
    ensures |PAYLOAD_KEYS| == 3 && |METADATA_KEYS| == 6
  {
    assert "signerId"[5] == 'r' && "signedAt"[5] == 'd';
    assert Ascii("signerId")[5] != Ascii("signedAt")[5];
    hide Ascii;
    assert forall i :: 0 <= i < 6 ==> |METADATA_KEYS[i]| == [11, 8, 5, 9, 8, 10][i];
    assert forall i :: 0 <= i < 3 ==> |PAYLOAD_KEYS[i]| == [6, 8, 9][i];
  }

  /** Fields with distinct keys in their places make an object. */
  lemma ShapeIsJson(keys: seq<Text>, f: seq<Field<Json>>)
    requires Distinct(keys) && |f| <= |keys|
    requires forall i :: 0 <= i < |f| ==> f[i].key == keys[i] && IsJson(f[i].value)
    ensures IsJson(Obj(f))
  {}

  lemma MetadataShape(m: Metadata)
    ensures var f := MetadataFields(m); |f| <= 6 && forall i :: 0 <= i < |f| ==>
              f[i].key == METADATA_KEYS[i] && f[i].value.Str?
    ensures IsJson(Obj(MetadataFields(m)))
  {
    KeysAreDistinct();
    hide Ascii, METADATA_KEYS, Distinct;
    var f := MetadataFields(m);
    assert forall i :: 0 <= i < |f| ==> f[i].key == METADATA_KEYS[i] && f[i].value.Str?;
    ShapeIsJson(METADATA_KEYS, f);
  }

  lemma PayloadShape(unsigned: seq<Field<Json>>, m: Metadata)
    requires IsJson(Obj(unsigned))
    ensures var f := PayloadFields(unsigned, m); |f| == 3 && forall i :: 0 <= i < |f| ==> f[i].key == PAYLOAD_KEYS[i]
    ensures IsJson(Obj(PayloadFields(unsigned, m)))
  {
    KeysAreDistinct();
    MetadataShape(m);
    hide MetadataFields, Ascii, PAYLOAD_KEYS, Distinct;
    var f := PayloadFields(unsigned, m);
    assert f[0].value.Str? && f[1].value == Obj(unsigned) && f[2].value == Obj(MetadataFields(m));
    ShapeIsJson(PAYLOAD_KEYS, f);
  }

  /** Objects with the same keys in the same places say the same exactly when their values do. */
  lemma SameShape(keys: seq<Text>, a: seq<Field<Json>>, b: seq<Field<Json>>)
    requires Distinct(keys) && |a| <= |keys| && |b| <= |keys|
    requires forall i :: 0 <= i < |a| ==> a[i].key == keys[i]
    requires forall i :: 0 <= i < |b| ==> b[i].key == keys[i]
    ensures MeaningFields(a) == MeaningFields(b) <==>
            |a| == |b| && forall i :: 0 <= i < |a| ==> Meaning(a[i].value) == Meaning(b[i].value)
  {
    CoversIsSubset(a, b);
    CoversIsSubset(b, a);
    hide MeaningFields, Meaning, Covers, Covered, Distinct;
    if MeaningFields(a) == MeaningFields(b) {
      forall i | 0 <= i < |a| ensures i < |b| && Meaning(a[i].value) == Meaning(b[i].value) {
        SamePlace(keys, a, b, i);
      }
      if |a| > 0 { SamePlace(keys, a, b, |a| - 1); }
      if |b| > 0 { SamePlace(keys, b, a, |b| - 1); }
    }
    if |a| == |b| && forall i :: 0 <= i < |a| ==> Meaning(a[i].value) == Meaning(b[i].value) {
      SameValuesCover(keys, a, b);
      SameValuesCover(keys, b, a);
    }
  }

  lemma SameValuesCover(keys: seq<Text>, a: seq<Field<Json>>, b: seq<Field<Json>>)
    requires |a| == |b| <= |keys|
    requires forall i ::
               0 <= i < |a| ==> a[i].key == keys[i] && b[i].key == keys[i] && Meaning(a[i].value) == Meaning(b[i].value)
    ensures Covers(a, b)
  {
    hide Meaning;
    forall i | 0 <= i < |a| ensures Covered(a[i], b) {
      assert b[i].key == a[i].key;
    }
  }

  lemma SamePlace(keys: seq<Text>, a: seq<Field<Json>>, b: seq<Field<Json>>, i: nat)
    requires Distinct(keys) && i < |a| <= |keys| && |b| <= |keys| && Covers(a, b)
    requires forall i :: 0 <= i < |a| ==> a[i].key == keys[i]
    requires forall i :: 0 <= i < |b| ==> b[i].key == keys[i]
    ensures i < |b| && Meaning(a[i].value) == Meaning(b[i].value)
  {
    hide Meaning;
    assert Covered(a[i], b);
    var j :| 0 <= j < |b| && b[j].key == a[i].key && Meaning(b[j].value) == Meaning(a[i].value);
    assert keys[i] == keys[j];
  }

  lemma MetadataMeaning(m: Metadata, n: Metadata)
    ensures Meaning(Obj(MetadataFields(m))) == Meaning(Obj(MetadataFields(n))) <==> m == n
  {
    KeysAreDistinct();
    MetadataShape(m);
    MetadataShape(n);
    hide Ascii, METADATA_KEYS, Distinct, MeaningFields, IsJson;
    var a, b := MetadataFields(m), MetadataFields(n);
    SameShape(METADATA_KEYS, a, b);
    if Meaning(Obj(a)) == Meaning(Obj(b)) {
      assert forall i :: 0 <= i < |a| ==> a[i].value == b[i].value;
      assert a[0].value == b[0].value && a[1].value == b[1].value && a[2].value == b[2].value;
      assert a[3].value == b[3].value && a[4].value == b[4].value;
      assert |a| == 6 ==> a[5].value == b[5].value;
    }
  }

  lemma PayloadMeaning(u: seq<Field<Json>>, m: Metadata, w: seq<Field<Json>>, n: Metadata)
    requires IsJson(Obj(u)) && IsJson(Obj(w))
    ensures Meaning(Obj(PayloadFields(u, m))) == Meaning(Obj(PayloadFields(w, n))) <==>
              m == n && Meaning(Obj(u)) == Meaning(Obj(w))
  {
    KeysAreDistinct();
    PayloadShape(u, m);
    PayloadShape(w, n);
    MetadataMeaning(m, n);
    hide Ascii, PAYLOAD_KEYS, Distinct, MeaningFields, IsJson, MetadataFields;
    var a, b := PayloadFields(u, m), PayloadFields(w, n);
    SameShape(PAYLOAD_KEYS, a, b);
    hide Meaning, Canon;
    assert a[0].value == b[0].value;
    assert a[1].value == Obj(u) && b[1].value == Obj(w);
    assert a[2].value == Obj(MetadataFields(m)) && b[2].value == Obj(MetadataFields(n));
  }

  /** A signature covers exactly one envelope, up to key order, under exactly one metadata:
      no other pair has the same signed bytes. */
  lemma SignedBytesInjective(envelope: seq<Field<Json>>, m: Metadata, other: seq<Field<Json>>, n: Metadata)
    requires IsJson(Obj(envelope)) && IsJson(Obj(other))
    ensures SignedBytes(envelope, m) == SignedBytes(other, n)
            <==> m == n && Meaning(Obj(Unsigned(envelope))) == Meaning(Obj(Unsigned(other)))
  {
    hide IsJson, Canon, Utf8, WellPaired, Meaning, PayloadFields, Unsigned;
    UnsignedJson(envelope);
    UnsignedJson(other);
    var u, w := Unsigned(envelope), Unsigned(other);
    PayloadShape(u, m);
    PayloadShape(w, n);
    var p, q := Obj(PayloadFields(u, m)), Obj(PayloadFields(w, n));
    CanonWellPaired(p);
    CanonWellPaired(q);
    CanonUniquelyReadable(p, q);
    PayloadMeaning(u, m, w, n);
    if SignedBytes(envelope, m) == SignedBytes(other, n) { Utf8Injective(Canon(p), Canon(q)); }
  }
}
