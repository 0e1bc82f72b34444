/** The append-only journal file: one printed entry a line, recovered after any torn write. */
module Journal {
  import opened Wrappers

  type Byte = b: int | 0 <= b < 256

  type Bytes = seq<Byte>

  const NEWLINE: Byte := 10
  const READ_CHUNK_SIZE := 65536
  const MAX_SAFE_INTEGER := 9007199254740991

  type Cursor = n: nat | n <= MAX_SAFE_INTEGER

  datatype Event = Event(tenantId: string, idempotencyKey: string, eventId: string, requestDigest: string,
                         payload: Bytes)

  datatype Entry =
    | EventEntry(cursor: Cursor, event: Event)
    | DecisionEntry(cursor: Cursor, decidedFor: string, decision: Bytes)

  function TenantOf(e: Entry): string {
    match e
    case EventEntry(_, event) => event.tenantId
    case DecisionEntry(_, decidedFor, _) => decidedFor
  }

  /** Printing and checked parsing of one entry. */
  datatype Codec = Codec(encode: Entry -> Bytes, parse: Bytes -> Option<Entry>)

  /** Parsing undoes printing, a printed entry has no newline, no strict prefix of one parses. */
  ghost predicate ValidCodec(c: Codec) {
    && (forall e :: c.parse(c.encode(e)) == Some(e))
    && (forall e :: NEWLINE !in c.encode(e) && c.encode(e) != [])
    && (forall e, n {:trigger c.encode(e)[..n]} :: 0 <= n < |c.encode(e)| ==> c.parse(c.encode(e)[..n]) == None)
  }

  function PrintedLine(c: Codec, e: Entry): Bytes {
    c.encode(e) + [NEWLINE]
  }

  /** What an intact journal file holds. */
  function Log(c: Codec, entries: seq<Entry>): Bytes {
    if entries == [] then [] else PrintedLine(c, entries[0]) + Log(c, entries[1..])
  }

  ghost predicate Contiguous(entries: seq<Entry>, first: nat) {
    forall i :: 0 <= i < |entries| ==> entries[i].cursor == first + i
  }

  // ---- splitting into lines -------------------------------------------------------------

  function NewlineAt(file: Bytes): (n: nat)
    ensures n <= |file| && NEWLINE !in file[..n] && (n < |file| ==> file[n] == NEWLINE)
  {
    if file == [] || file[0] == NEWLINE then 0 else 1 + NewlineAt(file[1..])
  }

  lemma NewlineAtUnique(file: Bytes, n: nat)
    requires n <= |file| && NEWLINE !in file[..n] && (n < |file| ==> file[n] == NEWLINE)
    ensures NewlineAt(file) == n
  {
    var m := NewlineAt(file);
    assert forall k :: 0 <= k < n ==> file[..n][k] == file[k];
    assert forall k :: 0 <= k < m ==> file[..m][k] == file[k];
  }

  /** The newline-terminated lines, and what follows the last newline. */
  datatype Parts = Parts(texts: seq<Bytes>, tail: Bytes)

  function Split(file: Bytes): (p: Parts)
    ensures |p.tail| <= |file|
    decreases |file|
  {
    var n := NewlineAt(file);
    if n == |file| then Parts([], file)
    else var rest := Split(file[n + 1..]); Parts([file[..n]] + rest.texts, rest.tail)
  }

  function Unsplit(p: Parts): Bytes
    decreases |p.texts|
  {
    if p.texts == [] then p.tail else p.texts[0] + [NEWLINE] + Unsplit(Parts(p.texts[1..], p.tail))
  }

  lemma UnsplitTail(tail: Bytes)
    ensures Unsplit(Parts([], tail)) == tail
  {}

  lemma UnsplitMore(text: Bytes, p: Parts)
    ensures Unsplit(Parts([text] + p.texts, p.tail)) == text + [NEWLINE] + Unsplit(p)
  {
    assert Parts(([text] + p.texts)[1..], p.tail) == p;
  }

  /** Splitting loses nothing: it is the one way to cut the file at its newlines. */
  lemma {:induction false} SplitExact(file: Bytes)
    ensures Unsplit(Split(file)) == file
    decreases |file|
  {
    var n := NewlineAt(file);
    if n == |file| {
      UnsplitTail(file);
    } else {
      SplitExact(file[n + 1..]);
      UnsplitMore(file[..n], Split(file[n + 1..]));
      hide Unsplit;
      assert file == file[..n] + [NEWLINE] + file[n + 1..];
    }
  }

  lemma {:induction false} SplitClean(file: Bytes)
    ensures NEWLINE !in Split(file).tail
    ensures forall i :: 0 <= i < |Split(file).texts| ==> NEWLINE !in Split(file).texts[i]
    decreases |file|
  {
    var n := NewlineAt(file);
    if n < |file| { SplitClean(file[n + 1..]); } else { assert file[..n] == file; }
  }

  lemma SplitLine(text: Bytes, rest: Bytes)
    requires NEWLINE !in text
    ensures Split(text + [NEWLINE] + rest) == Parts([text] + Split(rest).texts, Split(rest).tail)
  {
    var file := text + [NEWLINE] + rest;
    assert file[..|text|] == text && file[|text| + 1..] == rest;
    NewlineAtUnique(file, |text|);
  }

  lemma SplitTail(text: Bytes)
    requires NEWLINE !in text
    ensures Split(text) == Parts([], text)
  {
    assert text[..|text|] == text;
    NewlineAtUnique(text, |text|);
  }

  datatype Line = Line(text: Bytes, terminated: bool, end: nat)

  /** The lines a reader of the file is given, from the given offset on. */
  function Lines(file: Bytes, offset: nat): seq<Line>
    requires offset <= |file|
    decreases |file| - offset
  {
    var rest := file[offset..];
    var n := NewlineAt(rest);
    if rest == [] then []
    else if n == |rest| then [Line(rest, false, |file|)]
    else [Line(rest[..n], true, offset + n + 1)] + Lines(file, offset + n + 1)
  }

  ghost predicate LinesMatch(lines: seq<Line>, p: Parts, offset: nat, length: nat) {
    && |lines| == |p.texts| + (if p.tail == [] then 0 else 1)
    && (forall i {:trigger lines[i]} :: 0 <= i < |p.texts| ==> lines[i].text == p.texts[i] && lines[i].terminated)
    && (p.tail != [] ==> lines[|p.texts|] == Line(p.tail, false, length))
    && length - |p.tail| == (if p.texts == [] then offset else lines[|p.texts| - 1].end)
  }

  lemma {:induction false} LinesAreParts(file: Bytes, offset: nat)
    requires offset <= |file|
    ensures LinesMatch(Lines(file, offset), Split(file[offset..]), offset, |file|)
    decreases |file| - offset
  {
    var rest := file[offset..];
    var n := NewlineAt(rest);
    if n < |rest| {
      assert rest[n + 1..] == file[offset + n + 1..];
      LinesAreParts(file, offset + n + 1);
      var lines, p := Lines(file, offset + n + 1), Split(file[offset + n + 1..]);
      MatchMore(lines, p, offset + n + 1, |file|, Line(rest[..n], true, offset + n + 1));
    }
  }

  lemma MatchMore(lines: seq<Line>, p: Parts, offset: nat, length: nat, line: Line)
    requires LinesMatch(lines, p, offset, length) && line.terminated && line.end == offset
    ensures forall from :: LinesMatch([line] + lines, Parts([line.text] + p.texts, p.tail), from, length)
  {
    var more, q := [line] + lines, Parts([line.text] + p.texts, p.tail);
    assert forall i :: 0 < i < |more| ==> more[i] == lines[i - 1];
    assert p.texts != [] ==> more[|q.texts| - 1] == lines[|p.texts| - 1];
  }

  function Join(segments: seq<Bytes>): Bytes {
    if segments == [] then [] else Join(segments[..|segments| - 1]) + segments[|segments| - 1]
  }

  lemma JoinPush(segments: seq<Bytes>, segment: Bytes)
    ensures Join(segments + [segment]) == Join(segments) + segment
  {
    assert (segments + [segment])[..|segments|] == segments;
  }

  method DecodeSegments(segments: seq<Bytes>) returns (combined: Bytes)
    ensures combined == Join(segments)
  {
    combined := [];
    for i := 0 to |segments|
      invariant combined == Join(segments[..i])
    {
      JoinPush(segments[..i], segments[i]);
      assert segments[..i + 1] == segments[..i] + [segments[i]];
      combined := combined + segments[i];
    }
    assert segments[..|segments|] == segments;
  }

  /** A line that ends at the first newline of what is left. */
  lemma LineEnds(file: Bytes, from: nat, stop: nat)
    requires from <= stop < |file| && NEWLINE !in file[from..stop] && file[stop] == NEWLINE
    ensures Lines(file, from) == [Line(file[from..stop], true, stop + 1)] + Lines(file, stop + 1)
  {
    var rest := file[from..];
    assert rest[..stop - from] == file[from..stop];
    NewlineAtUnique(rest, stop - from);
  }

  lemma LastLine(file: Bytes, from: nat)
    requires from <= |file| && NEWLINE !in file[from..]
    ensures Lines(file, from) == if from == |file| then [] else [Line(file[from..], false, |file|)]
  {
    var rest := file[from..];
    assert rest[..|rest|] == rest;
    NewlineAtUnique(rest, |rest|);
  }

  /** The reader has given out lines, has read the file up to at, and holds in its pending
      segments the bytes of the line it is in up to kept. */
  ghost predicate Reading(file: Bytes, lines: seq<Line>, lineStart: nat, pending: seq<Bytes>, kept: nat, at: nat) {
    && lineStart <= kept <= at <= |file|
    && lines + Lines(file, lineStart) == Lines(file, 0)
    && Join(pending) == file[lineStart..kept]
    && NEWLINE !in file[lineStart..at]
  }

  lemma ReadKept(file: Bytes, lines: seq<Line>, lineStart: nat, pending: seq<Bytes>, kept: nat, at: nat, segment: Bytes)
    requires Reading(file, lines, lineStart, pending, kept, at) && segment == file[kept..at]
    ensures Reading(file, lines, lineStart, pending + [segment], at, at)
  {
    JoinPush(pending, segment);
    assert file[lineStart..at] == file[lineStart..kept] + segment;
  }

  lemma ReadOn(file: Bytes, lines: seq<Line>, lineStart: nat, pending: seq<Bytes>, kept: nat, at: nat)
    requires Reading(file, lines, lineStart, pending, kept, at) && at < |file| && file[at] != NEWLINE
    ensures Reading(file, lines, lineStart, pending, kept, at + 1)
  {
    assert file[lineStart..at + 1] == file[lineStart..at] + [file[at]];
  }

  lemma ReadLine(file: Bytes, lines: seq<Line>, lineStart: nat, pending: seq<Bytes>, at: nat)
    requires Reading(file, lines, lineStart, pending, at, at) && at < |file| && file[at] == NEWLINE
    ensures Reading(file, lines + [Line(Join(pending), true, at + 1)], at + 1, [], at + 1, at + 1)
  {
    LineEnds(file, lineStart, at);
    hide Lines;
    LinesAssoc(lines, [Line(Join(pending), true, at + 1)], Lines(file, at + 1));
  }

  lemma LinesAssoc(a: seq<Line>, b: seq<Line>, c: seq<Line>)
    ensures (a + b) + c == a + (b + c)
  {}

  lemma ReadLast(file: Bytes, lines: seq<Line>, lineStart: nat, pending: seq<Bytes>)
    requires Reading(file, lines, lineStart, pending, |file|, |file|)
    ensures Lines(file, 0) == lines + (if lineStart == |file| then [] else [Line(Join(pending), false, |file|)])
  {
    assert file[lineStart..] == file[lineStart..|file|];
    LastLine(file, lineStart);
  }

  lemma SliceOfSlice(file: Bytes, offset: nat, length: nat, from: nat, to: nat)
    requires from <= to <= length && offset + length <= |file|
    ensures file[offset..offset + length][from..to] == file[offset + from..offset + to]
  {
    var a, b := file[offset..offset + length][from..to], file[offset + from..offset + to];
    assert |a| == |b|;
    assert forall k :: 0 <= k < |a| ==> a[k] == b[k];
  }

  /** Reads the file in chunks of any length from 1 to the buffer's: a read may stop short. */
  method JournalLines(file: Bytes) returns (lines: seq<Line>)
    ensures lines == Lines(file, 0)
  {
    hide Lines, Reading, Join;
    lines := [];
    var pending: seq<Bytes>, pendingBytes, fileOffset := [], 0, 0;
    ghost var lineStart := 0;
    assert Reading(file, lines, 0, pending, 0, 0) by { ReadNothing(file); }
    while fileOffset < |file|
      invariant 0 <= lineStart <= fileOffset <= |file| && pendingBytes == fileOffset - lineStart
      invariant Reading(file, lines, lineStart, pending, fileOffset, fileOffset)
      decreases |file| - fileOffset
    {
      var bytesRead :| 1 <= bytesRead <= READ_CHUNK_SIZE && bytesRead <= |file| - fileOffset;
      var chunk := file[fileOffset..fileOffset + bytesRead];
      var segmentStart := 0;
      for index := 0 to bytesRead
        invariant 0 <= segmentStart <= index && lineStart <= fileOffset + segmentStart
        invariant pendingBytes == fileOffset + segmentStart - lineStart
        invariant Reading(file, lines, lineStart, pending, fileOffset + segmentStart, fileOffset + index)
      {
        if chunk[index] != NEWLINE {
          ReadOn(file, lines, lineStart, pending, fileOffset + segmentStart, fileOffset + index);
          continue;
        }
        var segment := chunk[segmentStart..index];
        SliceOfSlice(file, fileOffset, bytesRead, segmentStart, index);
        if |segment| > 0 {
          ReadKept(file, lines, lineStart, pending, fileOffset + segmentStart, fileOffset + index, segment);
          pending := pending + [segment];
          pendingBytes := pendingBytes + |segment|;
        }
        var text := [];
        if pendingBytes != 0 { text := DecodeSegments(pending); }
        NothingPending(file, lines, lineStart, pending, fileOffset + index);
        ReadLine(file, lines, lineStart, pending, fileOffset + index);
        lines := lines + [Line(text, true, fileOffset + index + 1)];
        lineStart := fileOffset + index + 1;
        pending, pendingBytes, segmentStart := [], 0, index + 1;
      }
      if segmentStart < bytesRead {
        var segment := chunk[segmentStart..bytesRead];
        SliceOfSlice(file, fileOffset, bytesRead, segmentStart, bytesRead);
        ReadKept(file, lines, lineStart, pending, fileOffset + segmentStart, fileOffset + bytesRead, segment);
        pending := pending + [segment];
        pendingBytes := pendingBytes + |segment|;
      }
      fileOffset := fileOffset + bytesRead;
    }
    ReadLast(file, lines, lineStart, pending);
    if pendingBytes > 0 {
      var text := DecodeSegments(pending);
      lines := lines + [Line(text, false, fileOffset)];
    }
  }

  lemma ReadNothing(file: Bytes)
    ensures Reading(file, [], 0, [], 0, 0)
  {
    assert [] + Lines(file, 0) == Lines(file, 0);
  }

  lemma NothingPending(file: Bytes, lines: seq<Line>, lineStart: nat, pending: seq<Bytes>, at: nat)
    requires Reading(file, lines, lineStart, pending, at, at)
    ensures lineStart == at ==> Join(pending) == []
  {}

  // ---- what a file says -----------------------------------------------------------------

  /** The entries of consecutive lines, whose cursors must count up from first. */
  function ParseLines(c: Codec, texts: seq<Bytes>, first: nat): Option<seq<Entry>> {
    if texts == [] then Some([])
    else if texts[0] == [] then ParseLines(c, texts[1..], first)
    else
      match c.parse(texts[0])
      case None => None
      case Some(e) =>
        if e.cursor != first then None
        else match ParseLines(c, texts[1..], first + 1)
             case None => None
             case Some(rest) => Some([e] + rest)
  }

  datatype Recovery = Refused | Recovered(entries: seq<Entry>, file: Bytes)

  /** Every terminated line must be the next entry; an unterminated last line is kept, and
      then terminated, if it is the next entry, and is cut off if not. */
  function Recover(c: Codec, file: Bytes): Recovery {
    var p := Split(file);
    match ParseLines(c, p.texts, 1)
    case None => Refused
    case Some(entries) =>
      var next := if p.tail == [] then None else c.parse(p.tail);
      if next.Some? && next.value.cursor == |entries| + 1 then Recovered(entries + [next.value], file + [NEWLINE])
      else Recovered(entries, file[..|file| - |p.tail|])
  }

  lemma {:induction false} ParseLinesContiguous(c: Codec, texts: seq<Bytes>, first: nat)
    requires ParseLines(c, texts, first).Some?
    ensures Contiguous(ParseLines(c, texts, first).value, first)
  {
    if texts != [] {
      if texts[0] == [] { ParseLinesContiguous(c, texts[1..], first); }
      else { ParseLinesContiguous(c, texts[1..], first + 1); }
    }
  }

  function Joined(before: seq<Entry>, after: Option<seq<Entry>>): Option<seq<Entry>> {
    match after
    case None => None
    case Some(entries) => Some(before + entries)
  }

  lemma JoinedTwice(a: seq<Entry>, b: seq<Entry>, c: Option<seq<Entry>>)
    ensures Joined(a, Joined(b, c)) == Joined(a + b, c)
    ensures Joined([], c) == c
  {
    match c
    case None =>
    case Some(entries) =>
      assert a + (b + entries) == a + b + entries;
      assert [] + entries == entries;
  }

  lemma {:induction false} ParseLinesAppend(c: Codec, texts: seq<Bytes>, more: seq<Bytes>, first: nat)
    ensures ParseLines(c, texts, first).None? ==> ParseLines(c, texts + more, first).None?
    ensures ParseLines(c, texts, first).Some? ==>
              var entries := ParseLines(c, texts, first).value;
              ParseLines(c, texts + more, first) == Joined(entries, ParseLines(c, more, first + |entries|))
  {
    if texts == [] {
      assert texts + more == more;
      JoinedTwice([], [], ParseLines(c, more, first));
    } else {
      assert (texts + more)[1..] == texts[1..] + more;
      if texts[0] == [] {
        ParseLinesAppend(c, texts[1..], more, first);
      } else {
        ParseLinesAppend(c, texts[1..], more, first + 1);
        if ParseLines(c, texts, first).Some? {
          var entries := ParseLines(c, texts[1..], first + 1).value;
          JoinedTwice([c.parse(texts[0]).value], entries, ParseLines(c, more, first + 1 + |entries|));
        }
      }
    }
  }

  // ---- recovery of a torn log -----------------------------------------------------------

  /** How many entries have all their printed bytes in the first cut bytes of the log. */
  function Complete(c: Codec, entries: seq<Entry>, cut: nat): (m: nat)
    ensures m <= |entries|
  {
    if entries == [] || cut < |c.encode(entries[0])| then 0
    else if cut == |c.encode(entries[0])| then 1
    else 1 + Complete(c, entries[1..], cut - |c.encode(entries[0])| - 1)
  }

  function Printed(c: Codec, entries: seq<Entry>): seq<Bytes> {
    seq(|entries|, i requires 0 <= i < |entries| => c.encode(entries[i]))
  }

  lemma {:induction false} LogSplits(c: Codec, entries: seq<Entry>, rest: Bytes)
    requires ValidCodec(c)
    ensures Split(Log(c, entries) + rest) == Parts(Printed(c, entries) + Split(rest).texts, Split(rest).tail)
  {
    hide Split;
    if entries == [] {
      assert Log(c, entries) + rest == rest;
      assert Printed(c, entries) + Split(rest).texts == Split(rest).texts;
    } else {
      var text, after := c.encode(entries[0]), Log(c, entries[1..]) + rest;
      assert Log(c, entries) + rest == text + [NEWLINE] + after;
      SplitLine(text, after);
      LogSplits(c, entries[1..], rest);
      assert Printed(c, entries) == [text] + Printed(c, entries[1..]);
      assert [text] + (Printed(c, entries[1..]) + Split(rest).texts) == Printed(c, entries) + Split(rest).texts;
    }
  }

  lemma {:induction false} PrintedParse(c: Codec, entries: seq<Entry>, first: nat)
    requires ValidCodec(c) && Contiguous(entries, first)
    ensures ParseLines(c, Printed(c, entries), first) == Some(entries)
  {
    if entries != [] {
      assert Printed(c, entries)[1..] == Printed(c, entries[1..]);
      PrintedParse(c, entries[1..], first + 1);
      assert [entries[0]] + entries[1..] == entries;
    }
  }

  /** The log of the first m entries, or that with its newline missing, or that and a strict
      prefix of the next entry's text. */
  ghost predicate TornAt(c: Codec, entries: seq<Entry>, m: nat, torn: Bytes) {
    m <= |entries|
    && (|| torn == Log(c, entries[..m])
        || (m > 0 && torn == Log(c, entries[..m - 1]) + c.encode(entries[m - 1]))
        || (m < |entries| && (exists n {:trigger c.encode(entries[m])[..n]} ::
              0 <= n < |c.encode(entries[m])| && torn == Log(c, entries[..m]) + c.encode(entries[m])[..n])))
  }

  lemma TornMore(c: Codec, entries: seq<Entry>, m: nat, torn: Bytes, e: Entry)
    requires TornAt(c, entries, m, torn)
    ensures TornAt(c, [e] + entries, m + 1, PrintedLine(c, e) + torn)
  {
    var all := [e] + entries;
    assert all[..m + 1][1..] == entries[..m];
    assert Log(c, all[..m + 1]) == PrintedLine(c, e) + Log(c, entries[..m]);
    if torn == Log(c, entries[..m]) {
    } else if m > 0 && torn == Log(c, entries[..m - 1]) + c.encode(entries[m - 1]) {
      assert all[..m][1..] == entries[..m - 1];
      assert Log(c, all[..m]) == PrintedLine(c, e) + Log(c, entries[..m - 1]);
    } else {
      var n :| 0 <= n < |c.encode(entries[m])| && torn == Log(c, entries[..m]) + c.encode(entries[m])[..n];
      assert c.encode(all[m + 1])[..n] == c.encode(entries[m])[..n];
    }
  }

  lemma {:induction false} CutLog(c: Codec, entries: seq<Entry>, cut: nat)
    requires cut <= |Log(c, entries)|
    ensures TornAt(c, entries, Complete(c, entries, cut), Log(c, entries)[..cut])
  {
    var m, torn := Complete(c, entries, cut), Log(c, entries)[..cut];
    if entries == [] {
      assert entries[..0] == entries;
    } else {
      var text, rest := c.encode(entries[0]), entries[1..];
      if cut <= |text| {
        assert torn == text[..cut];
        assert Log(c, entries[..0]) + text[..cut] == text[..cut];
        assert cut == |text| ==> text[..cut] == text;
      } else {
        CutLog(c, rest, cut - |text| - 1);
        assert torn == PrintedLine(c, entries[0]) + Log(c, rest)[..cut - |text| - 1];
        TornMore(c, rest, m - 1, Log(c, rest)[..cut - |text| - 1], entries[0]);
        assert [entries[0]] + rest == entries;
      }
    }
  }

  lemma LogPush(c: Codec, entries: seq<Entry>, e: Entry)
    ensures Log(c, entries + [e]) == Log(c, entries) + PrintedLine(c, e)
  {
    if entries == [] {
      assert entries + [e] == [e];
      assert Log(c, [e]) == PrintedLine(c, e) + Log(c, []);
    } else {
      LogPush(c, entries[1..], e);
      assert (entries + [e])[1..] == entries[1..] + [e];
    }
  }

  lemma LogEnds(c: Codec, entries: seq<Entry>)
    ensures Log(c, entries) == [] || Log(c, entries)[|Log(c, entries)| - 1] == NEWLINE
  {
    if entries != [] {
      LogPush(c, entries[..|entries| - 1], entries[|entries| - 1]);
      assert entries[..|entries| - 1] + [entries[|entries| - 1]] == entries;
    }
  }

  /** Recovery from every crash point: whatever prefix of the log survives, loading recovers
      exactly the entries whose printed bytes are all there, and leaves exactly their log. */
  lemma CrashRecovery(c: Codec, entries: seq<Entry>, cut: nat)
    requires ValidCodec(c) && Contiguous(entries, 1) && cut <= |Log(c, entries)|
    ensures var m := Complete(c, entries, cut);
            Recover(c, Log(c, entries)[..cut]) == Recovered(entries[..m], Log(c, entries[..m]))
  {
    var m, torn := Complete(c, entries, cut), Log(c, entries)[..cut];
    CutLog(c, entries, cut);
    hide Recover, Log, Complete;
    if torn == Log(c, entries[..m]) {
      assert Log(c, entries[..m]) + [] == torn;
      TornTail(c, entries[..m], []);
    } else if m > 0 && torn == Log(c, entries[..m - 1]) + c.encode(entries[m - 1]) {
      TornTail(c, entries[..m - 1], c.encode(entries[m - 1]));
      assert entries[..m - 1] + [entries[m - 1]] == entries[..m];
      LogPush(c, entries[..m - 1], entries[m - 1]);
      assert torn + [NEWLINE] == Log(c, entries[..m]);
    } else {
      var n :| 0 <= n < |c.encode(entries[m])| && torn == Log(c, entries[..m]) + c.encode(entries[m])[..n];
      TornTail(c, entries[..m], c.encode(entries[m])[..n]);
    }
  }

  /** Loading a log that is followed by part of one line. */
  lemma TornTail(c: Codec, entries: seq<Entry>, piece: Bytes)
    requires ValidCodec(c) && Contiguous(entries, 1) && NEWLINE !in piece
    ensures var next := if piece == [] then None else c.parse(piece);
            Recover(c, Log(c, entries) + piece) ==
            if next.Some? && next.value.cursor == |entries| + 1
            then Recovered(entries + [next.value], Log(c, entries) + piece + [NEWLINE])
            else Recovered(entries, Log(c, entries))
  {
    LogSplits(c, entries, piece);
    SplitTail(piece);
    PrintedParse(c, entries, 1);
    assert Printed(c, entries) + [] == Printed(c, entries);
    assert (Log(c, entries) + piece)[..|Log(c, entries)|] == Log(c, entries);
  }

  // ---- the index of recorded events -----------------------------------------------------

  datatype EventKey = EventKey(tenantId: string, idempotencyKey: string)

  datatype EventIndex = EventIndex(cursor: nat, eventId: string, requestDigest: string)

  function KeyOf(event: Event): EventKey {
    EventKey(event.tenantId, event.idempotencyKey)
  }

  function Indexed(index: map<EventKey, EventIndex>, e: Entry): map<EventKey, EventIndex> {
    match e
    case EventEntry(_, event) => index[KeyOf(event) := IndexEntry(e)]
    case DecisionEntry(_, _, _) => index
  }

  function IndexOf(entries: seq<Entry>): map<EventKey, EventIndex> {
    if entries == [] then map[] else Indexed(IndexOf(entries[..|entries| - 1]), entries[|entries| - 1])
  }

  lemma IndexPush(entries: seq<Entry>, e: Entry)
    ensures IndexOf(entries + [e]) == Indexed(IndexOf(entries), e)
  {
    assert (entries + [e])[..|entries|] == entries;
  }

  ghost predicate HasKey(e: Entry, key: EventKey) {
    e.EventEntry? && e.event.tenantId == key.tenantId && e.event.idempotencyKey == key.idempotencyKey
  }

  /** An event of the history that has the tenant and idempotency key of this one. */
  ghost predicate SameKey(e: Entry, event: Event) {
    e.EventEntry? && e.event.tenantId == event.tenantId && e.event.idempotencyKey == event.idempotencyKey
  }

  /** And also its id and digest. */
  ghost predicate SameEvent(e: Entry, event: Event) {
    SameKey(e, event) && e.event.eventId == event.eventId && e.event.requestDigest == event.requestDigest
  }

  ghost predicate Known(history: seq<Entry>, event: Event) {
    exists i {:trigger history[i]} :: 0 <= i < |history| && SameKey(history[i], event)
  }

  /** What the index has for an event comes from the history. */
  lemma IndexKnows(history: seq<Entry>, event: Event)
    ensures var key, index := KeyOf(event), IndexOf(history);
            && (key in index <==> Known(history, event))
            && (key in index ==> exists i {:trigger history[i]} ::
                  && 0 <= i < |history| && SameKey(history[i], event) && history[i].cursor == index[key].cursor
                  && (SameEvent(history[i], event) <==>
                      index[key].eventId == event.eventId && index[key].requestDigest == event.requestDigest))
  {
    var key, index := KeyOf(event), IndexOf(history);
    IndexExact(history, key);
    hide IndexOf;
    if key in index {
      var i :| 0 <= i < |history| && HasKey(history[i], key) && index[key] == IndexEntry(history[i]);
      assert SameKey(history[i], event);
    }
    if Known(history, event) {
      var i :| 0 <= i < |history| && SameKey(history[i], event);
      assert HasKey(history[i], key);
    }
  }

  function IndexEntry(e: Entry): EventIndex
    requires e.EventEntry?
  {
    EventIndex(e.cursor, e.event.eventId, e.event.requestDigest)
  }

  ghost predicate RecordedAs(entries: seq<Entry>, key: EventKey, found: EventIndex) {
    exists i {:trigger entries[i]} :: 0 <= i < |entries| && HasKey(entries[i], key) && found == IndexEntry(entries[i])
  }

  /** The index answers for exactly the keys recorded, with an entry that has the key. */
  lemma {:induction false} IndexExact(entries: seq<Entry>, key: EventKey)
    ensures key in IndexOf(entries) <==> exists i {:trigger entries[i]} :: 0 <= i < |entries| && HasKey(entries[i], key)
    ensures key in IndexOf(entries) ==> RecordedAs(entries, key, IndexOf(entries)[key])
  {
    if entries != [] {
      var n := |entries| - 1;
      IndexExact(entries[..n], key);
      if key in IndexOf(entries) {
        if HasKey(entries[n], key) {
        } else {
          var i :| 0 <= i < n && HasKey(entries[..n][i], key) && IndexOf(entries)[key] == IndexEntry(entries[..n][i]);
          assert entries[i] == entries[..n][i];
        }
      } else {
        forall i | 0 <= i < |entries| ensures !HasKey(entries[i], key) {
          assert i < n ==> entries[i] == entries[..n][i];
        }
      }
    }
  }

  /** No tenant's idempotency key was recorded twice. */
  ghost predicate KeysUnique(entries: seq<Entry>) {
    forall i, j {:trigger entries[i], entries[j]} :: 0 <= i < j < |entries| && entries[i].EventEntry? ==>
      !SameKey(entries[j], entries[i].event)
  }

  lemma KeysStayUnique(entries: seq<Entry>, e: Entry)
    requires KeysUnique(entries) && (e.EventEntry? ==> KeyOf(e.event) !in IndexOf(entries))
    ensures KeysUnique(entries + [e])
  {
    if e.EventEntry? { IndexExact(entries, KeyOf(e.event)); }
  }

  // ---- reading --------------------------------------------------------------------------

  predicate Matches(e: Entry, cursor: nat, tenant: Option<string>) {
    e.cursor > cursor && (tenant == None || TenantOf(e) == tenant.value)
  }

  function Selected(entries: seq<Entry>, cursor: nat, tenant: Option<string>): seq<Entry> {
    if entries == [] then []
    else (if Matches(entries[0], cursor, tenant) then [entries[0]] else []) + Selected(entries[1..], cursor, tenant)
  }

  function Take(entries: seq<Entry>, max: Option<nat>): seq<Entry> {
    if max == None || |entries| <= max.value then entries else entries[..max.value]
  }

  /** Reading lines until enough entries match; a malformed line is an error only if reached. */
  function ReadTexts(c: Codec, texts: seq<Bytes>, cursor: nat, tenant: Option<string>,
                     max: Option<nat>): Option<seq<Entry>> {
    if texts == [] || max == Some(0) then Some([])
    else if texts[0] == [] then ReadTexts(c, texts[1..], cursor, tenant, max)
    else
      match c.parse(texts[0])
      case None => None
      case Some(e) =>
        if !Matches(e, cursor, tenant) then ReadTexts(c, texts[1..], cursor, tenant, max)
        else Joined([e], ReadTexts(c, texts[1..], cursor, tenant, if max == None then None else Some(max.value - 1)))
  }

  lemma {:induction false} ReadPrinted(c: Codec, entries: seq<Entry>, cursor: nat, tenant: Option<string>,
                                       max: Option<nat>)
    requires ValidCodec(c)
    ensures ReadTexts(c, Printed(c, entries), cursor, tenant, max) == Some(Take(Selected(entries, cursor, tenant), max))
  {
    if entries != [] && max != Some(0) {
      assert Printed(c, entries)[1..] == Printed(c, entries[1..]);
      assert Printed(c, entries)[0] == c.encode(entries[0]);
      if Matches(entries[0], cursor, tenant) {
        var less := if max == None then None else Some(max.value - 1);
        ReadPrinted(c, entries[1..], cursor, tenant, less);
        assert [entries[0]] + Take(Selected(entries[1..], cursor, tenant), less) ==
          Take(Selected(entries, cursor, tenant), max);
      } else {
        ReadPrinted(c, entries[1..], cursor, tenant, max);
        assert Selected(entries, cursor, tenant) == Selected(entries[1..], cursor, tenant);
      }
    } else if max == Some(0) {
      assert Take(Selected(entries, cursor, tenant), max) == [];
    }
  }

  datatype Page = Page(entries: seq<Entry>, nextCursor: nat, hasMore: bool)

  function PageOf(entries: seq<Entry>, cursor: nat, tenant: Option<string>, limit: nat): Page {
    var all := Selected(entries, cursor, tenant);
    var shown := Take(all, Some(limit));
    Page(shown, if shown == [] then cursor else shown[|shown| - 1].cursor, |all| > limit)
  }

  lemma {:induction false} SelectedInOrder(entries: seq<Entry>, cursor: nat, tenant: Option<string>, first: nat)
    requires Contiguous(entries, first)
    ensures |Selected(entries, cursor, tenant)| <= |entries|
    ensures var s := Selected(entries, cursor, tenant);
            (forall i :: 0 <= i < |s| ==> s[i].cursor >= first && Matches(s[i], cursor, tenant))
            && (forall i, j :: 0 <= i < j < |s| ==> s[i].cursor < s[j].cursor)
  {
    if entries != [] { SelectedInOrder(entries[1..], cursor, tenant, first + 1); }
  }

  /** An entry behind the cursor, and of the tenant if one is named. */
  ghost predicate Wanted(e: Entry, cursor: nat, tenant: Option<string>) {
    && e.cursor > cursor
    && (tenant.Some? ==> (if e.EventEntry? then e.event.tenantId else e.decidedFor) == tenant.value)
  }

  lemma {:induction false} SelectedWanted(entries: seq<Entry>, cursor: nat, tenant: Option<string>)
    ensures forall e :: e in Selected(entries, cursor, tenant) <==> e in entries && Wanted(e, cursor, tenant)
  {
    if entries != [] {
      SelectedWanted(entries[1..], cursor, tenant);
      assert entries == [entries[0]] + entries[1..];
    }
  }

  ghost predicate Ascending(entries: seq<Entry>) {
    forall i, j :: 0 <= i < j < |entries| ==> entries[i].cursor < entries[j].cursor
  }

  /** The first wanted entries of the history. */
  ghost predicate FirstWanted(history: seq<Entry>, cursor: nat, tenant: Option<string>, found: seq<Entry>) {
    && Ascending(found)
    && (forall e :: e in found ==> e in history && Wanted(e, cursor, tenant))
    && (forall e, i {:trigger e in history, found[i]} ::
          e in history && Wanted(e, cursor, tenant) && 0 <= i < |found| && e.cursor <= found[i].cursor ==> e in found)
  }

  /** A page holds the first wanted entries, up to its cursor; it says whether there are others. */
  ghost predicate PageTells(history: seq<Entry>, cursor: nat, tenant: Option<string>, limit: nat, page: Page) {
    && FirstWanted(history, cursor, tenant, page.entries) && |page.entries| <= limit
    && (page.hasMore <==> exists e :: e in history && Wanted(e, cursor, tenant) && e !in page.entries)
    && (page.hasMore ==> |page.entries| == limit)
    && page.nextCursor == if page.entries == [] then cursor else page.entries[|page.entries| - 1].cursor
  }

  lemma TakenWanted(history: seq<Entry>, cursor: nat, tenant: Option<string>, max: Option<nat>)
    requires Contiguous(history, 1)
    ensures var all := Selected(history, cursor, tenant);
            var found := Take(all, max);
            && FirstWanted(history, cursor, tenant, found)
            && (|all| > |found| <==> exists e :: e in history && Wanted(e, cursor, tenant) && e !in found)
  {
    var all := Selected(history, cursor, tenant);
    var found := Take(all, max);
    SelectedInOrder(history, cursor, tenant, 1);
    SelectedWanted(history, cursor, tenant);
    hide Selected, Wanted, Contiguous, Matches;
    PrefixFirst(all, found);
  }

  lemma PrefixFirst(all: seq<Entry>, found: seq<Entry>)
    requires Ascending(all) && found <= all
    ensures Ascending(found)
    ensures forall e :: e in found ==> e in all
    ensures forall e, i {:trigger e in all, found[i]} ::
              e in all && 0 <= i < |found| && e.cursor <= found[i].cursor ==> e in found
    ensures |all| > |found| <==> exists e :: e in all && e !in found
  {
    forall i | 0 <= i < |found| ensures found[i] in all { assert found[i] == all[i]; }
    forall e, i | e in all && 0 <= i < |found| && e.cursor <= found[i].cursor ensures e in found {
      var k :| 0 <= k < |all| && all[k] == e;
      assert all[i] == found[i];
      assert k <= i && found[k] == e;
    }
    if |all| > |found| {
      var e := all[|found|];
      assert forall k :: 0 <= k < |found| ==> found[k] == all[k] && all[k].cursor < e.cursor;
      assert e in all && e !in found;
    } else {
      assert found == all;
    }
  }

  /** What reading the file gives: the first wanted entries, and all of them unless max are found. */
  ghost predicate ReadTells(history: seq<Entry>, cursor: nat, tenant: Option<string>, max: Option<nat>,
                            found: seq<Entry>) {
    && FirstWanted(history, cursor, tenant, found) && (max.Some? ==> |found| <= max.value)
    && (max == None || |found| < max.value ==>
          forall e :: e in history && Wanted(e, cursor, tenant) ==> e in found)
  }

  lemma TakenTells(history: seq<Entry>, cursor: nat, tenant: Option<string>, max: Option<nat>)
    requires Contiguous(history, 1)
    ensures ReadTells(history, cursor, tenant, max, Take(Selected(history, cursor, tenant), max))
  {
    hide Selected, Wanted, Contiguous, FirstWanted;
    TakenWanted(history, cursor, tenant, max);
  }

  lemma PageMeans(history: seq<Entry>, cursor: nat, tenant: Option<string>, limit: nat)
    requires Contiguous(history, 1) && limit >= 1
    ensures PageTells(history, cursor, tenant, limit, PageOf(history, cursor, tenant, limit))
  {
    hide Selected, FirstWanted, Contiguous;
    TakenWanted(history, cursor, tenant, Some(limit));
  }

  lemma SelectedSkips(entries: seq<Entry>, cursor: nat, tenant: Option<string>)
    requires entries != [] && !Matches(entries[0], cursor, tenant)
    ensures Selected(entries, cursor, tenant) == Selected(entries[1..], cursor, tenant)
  {}

  lemma SelectedTakes(entries: seq<Entry>, cursor: nat, tenant: Option<string>)
    requires entries != [] && Matches(entries[0], cursor, tenant)
    ensures Selected(entries, cursor, tenant) == [entries[0]] + Selected(entries[1..], cursor, tenant)
  {}

  lemma ContiguousTail(entries: seq<Entry>, first: nat)
    requires entries != [] && Contiguous(entries, first)
    ensures entries[0].cursor == first && Contiguous(entries[1..], first + 1)
  {}

  lemma SelectedCursor(entries: seq<Entry>, cursor: nat, tenant: Option<string>, first: nat, n: nat)
    requires Contiguous(entries, first) && n < |Selected(entries, cursor, tenant)|
    ensures entries != [] && first <= Selected(entries, cursor, tenant)[n].cursor
  {
    SelectedInOrder(entries, cursor, tenant, first);
  }

  /** Reading on from the cursor c of the n-th match gives the matches after it. */
  lemma {:induction false} SelectedFrom(entries: seq<Entry>, cursor: nat, tenant: Option<string>, first: nat, n: nat,
                                        c: nat)
    requires Contiguous(entries, first) && n < |Selected(entries, cursor, tenant)|
    requires c == Selected(entries, cursor, tenant)[n].cursor
    ensures Selected(entries, c, tenant) == Selected(entries, cursor, tenant)[n + 1..]
    decreases |entries|, 1
  {
    SelectedCursor(entries, cursor, tenant, first, n);
    ContiguousTail(entries, first);
    var e, tail := entries[0], entries[1..];
    assert !Matches(e, c, tenant);
    SelectedSkips(entries, c, tenant);
    if !Matches(e, cursor, tenant) {
      SelectedSkips(entries, cursor, tenant);
      hide Selected, Contiguous, Matches;
      SelectedFrom(tail, cursor, tenant, first + 1, n, c);
    } else {
      SelectedTakes(entries, cursor, tenant);
      SelectedRest(entries, cursor, tenant, n, c, first);
    }
  }

  lemma SelectedRest(entries: seq<Entry>, cursor: nat, tenant: Option<string>, n: nat, c: nat, first: nat)
    requires entries != [] && Contiguous(entries[1..], first + 1) && entries[0].cursor == first && cursor < first
    requires n <= |Selected(entries[1..], cursor, tenant)|
    requires Selected(entries, cursor, tenant) == [entries[0]] + Selected(entries[1..], cursor, tenant)
    requires c == Selected(entries, cursor, tenant)[n].cursor
    ensures Selected(entries[1..], c, tenant) == Selected(entries, cursor, tenant)[n + 1..]
    decreases |entries|, 0
  {
    hide Selected, Contiguous, Matches;
    var s, rest := Selected(entries, cursor, tenant), Selected(entries[1..], cursor, tenant);
    if n == 0 {
      SelectedHigher(entries[1..], cursor, first, tenant, first + 1);
      assert s[1..] == rest;
    } else {
      assert s[n] == rest[n - 1] && s[n + 1..] == rest[n..];
      SelectedFrom(entries[1..], cursor, tenant, first + 1, n - 1, c);
    }
  }

  lemma {:induction false} SelectedHigher(entries: seq<Entry>, low: nat, high: nat, tenant: Option<string>, first: nat)
    requires Contiguous(entries, first) && low <= high < first
    ensures Selected(entries, low, tenant) == Selected(entries, high, tenant)
  {
    if entries != [] { SelectedHigher(entries[1..], low, high, tenant, first + 1); }
  }

  /** A page and what is left after its cursor make up what was left before it. */
  lemma PageSplits(entries: seq<Entry>, cursor: nat, tenant: Option<string>, limit: nat)
    requires Contiguous(entries, 1) && limit >= 1
    ensures var page := PageOf(entries, cursor, tenant, limit);
            && page.entries + Selected(entries, page.nextCursor, tenant) == Selected(entries, cursor, tenant)
            && cursor <= page.nextCursor && (page.nextCursor <= cursor || page.nextCursor <= |entries|)
            && (page.hasMore ==> |page.entries| == limit)
            && (!page.hasMore ==> page.entries == Selected(entries, cursor, tenant))
  {
    var page, all := PageOf(entries, cursor, tenant, limit), Selected(entries, cursor, tenant);
    SelectedInOrder(entries, cursor, tenant, 1);
    SelectedBounded(entries, cursor, tenant, 1);
    hide Selected, Contiguous;
    if |page.entries| > 0 {
      var n := |page.entries| - 1;
      SelectedFrom(entries, cursor, tenant, 1, n, all[n].cursor);
      assert all[n] == page.entries[n];
      assert page.entries == all[..n + 1];
      assert all[..n + 1] + all[n + 1..] == all;
    } else {
      assert all == [];
    }
  }

  /** The concatenation of the pages a reader gets by following nextCursor to the end. */
  function AllPages(entries: seq<Entry>, cursor: nat, tenant: Option<string>, limit: nat, fuel: nat): seq<Entry>
    decreases fuel
  {
    var page := PageOf(entries, cursor, tenant, limit);
    if !page.hasMore || fuel == 0 then page.entries
    else page.entries + AllPages(entries, page.nextCursor, tenant, limit, fuel - 1)
  }

  lemma PagesMeasure(entries: seq<Entry>, cursor: nat, tenant: Option<string>, limit: nat)
    requires Contiguous(entries, 1) && limit >= 1
    ensures var page := PageOf(entries, cursor, tenant, limit);
            page.hasMore ==> |Selected(entries, page.nextCursor, tenant)| < |Selected(entries, cursor, tenant)|
  {
    PageSplits(entries, cursor, tenant, limit);
  }

  /** Following the pages reads every matching entry exactly once, in order. */
  lemma {:induction false} PagingIsComplete(entries: seq<Entry>, cursor: nat, tenant: Option<string>, limit: nat,
                                            fuel: nat)
    requires Contiguous(entries, 1) && limit >= 1 && fuel >= |Selected(entries, cursor, tenant)|
    ensures AllPages(entries, cursor, tenant, limit, fuel) == Selected(entries, cursor, tenant)
    decreases fuel
  {
    hide Selected, Contiguous, PageOf;
    PageSplits(entries, cursor, tenant, limit);
    var page := PageOf(entries, cursor, tenant, limit);
    PagesMeasure(entries, cursor, tenant, limit);
    if page.hasMore { PagingIsComplete(entries, page.nextCursor, tenant, limit, fuel - 1); }
  }

  lemma {:induction false} SelectedAppend(entries: seq<Entry>, more: seq<Entry>, cursor: nat, tenant: Option<string>)
    ensures Selected(entries + more, cursor, tenant) ==
              Selected(entries, cursor, tenant) + Selected(more, cursor, tenant)
  {
    if entries == [] {
      assert entries + more == more;
    } else {
      SelectedAppend(entries[1..], more, cursor, tenant);
      TailOfAppend(entries, more);
      if Matches(entries[0], cursor, tenant) {
        SelectedTakes(entries, cursor, tenant);
        SelectedTakes(entries + more, cursor, tenant);
        hide Selected;
        Assoc([entries[0]], Selected(entries[1..], cursor, tenant), Selected(more, cursor, tenant));
      } else {
        SelectedSkips(entries, cursor, tenant);
        SelectedSkips(entries + more, cursor, tenant);
      }
    }
  }

  lemma TailOfAppend(entries: seq<Entry>, more: seq<Entry>)
    requires entries != []
    ensures (entries + more)[0] == entries[0] && (entries + more)[1..] == entries[1..] + more
  {}

  /** Paging while entries are appended: if what was read so far and what is left make up the
      answer, that stays true when the journal has grown and another page is read. */
  lemma PagesFollowAppends(entries: seq<Entry>, more: seq<Entry>, start: nat, cursor: nat, tenant: Option<string>,
                           limit: nat, seen: seq<Entry>)
    requires Contiguous(entries + more, 1) && limit >= 1 && start <= cursor <= |entries|
    requires seen + Selected(entries, cursor, tenant) == Selected(entries, start, tenant)
    ensures var page := PageOf(entries + more, cursor, tenant, limit);
            && start <= page.nextCursor <= |entries + more|
            && seen + page.entries + Selected(entries + more, page.nextCursor, tenant) ==
                 Selected(entries + more, start, tenant)
  {
    var grown := entries + more;
    assert Contiguous(more, |entries| + 1) by {
      assert forall i :: 0 <= i < |more| ==> more[i] == grown[|entries| + i];
    }
    SelectedAppend(entries, more, cursor, tenant);
    SelectedAppend(entries, more, start, tenant);
    SelectedHigher(more, start, cursor, tenant, |entries| + 1);
    PageSplits(grown, cursor, tenant, limit);
    hide Selected, Contiguous, PageOf;
    var page := PageOf(grown, cursor, tenant, limit);
    Assoc(seen, Selected(entries, cursor, tenant), Selected(more, cursor, tenant));
    Assoc(seen, page.entries, Selected(grown, page.nextCursor, tenant));
  }

  lemma Assoc(a: seq<Entry>, b: seq<Entry>, c: seq<Entry>)
    ensures (a + b) + c == a + (b + c)
  {}

  lemma {:induction false} SelectedBounded(entries: seq<Entry>, cursor: nat, tenant: Option<string>, first: nat)
    requires Contiguous(entries, first)
    ensures forall i {:trigger Selected(entries, cursor, tenant)[i]} :: 0 <= i < |Selected(entries, cursor, tenant)| ==>
              Selected(entries, cursor, tenant)[i].cursor < first + |entries|
  {
    if entries != [] { SelectedBounded(entries[1..], cursor, tenant, first + 1); }
  }

  // ---- the journal ----------------------------------------------------------------------

  datatype Append = Appended(cursor: nat) | Conflict | CursorsExhausted | PersistFailed

  datatype ReadResult = GotPage(page: Page) | InvalidLimit | Malformed

  /** What a write of one line that stops after some bytes leaves at the end of the file. */
  function Written(c: Codec, e: Entry, bytes: nat): Bytes {
    if bytes <= |PrintedLine(c, e)| then PrintedLine(c, e)[..bytes] else PrintedLine(c, e)
  }

  function Texts(file: Bytes): seq<Bytes> {
    Split(file).texts + (if Split(file).tail == [] then [] else [Split(file).tail])
  }

  lemma LinesAreTexts(file: Bytes)
    ensures |Lines(file, 0)| == |Texts(file)|
    ensures forall i {:trigger Lines(file, 0)[i]} :: 0 <= i < |Texts(file)| ==> Lines(file, 0)[i].text == Texts(file)[i]
    ensures LinesMatch(Lines(file, 0), Split(file), 0, |file|)
  {
    assert file[0..] == file;
    LinesAreParts(file, 0);
  }

  /** Lines as the loader meets them: terminated ones, then at most one that is not. */
  lemma LinesFacts(lines: seq<Line>, p: Parts, file: Bytes)
    requires LinesMatch(lines, p, 0, |file|) && p == Split(file)
    ensures |p.texts| <= |lines| <= |p.texts| + 1
    ensures forall i {:trigger lines[i]} :: 0 <= i < |p.texts| ==> lines[i].text == p.texts[i] && lines[i].terminated
    ensures |lines| > |p.texts| <==> p.tail != []
    ensures p.tail != [] ==> lines[|p.texts|] == Line(p.tail, false, |file|)
    ensures |file| - |p.tail| == (if p.texts == [] then 0 else lines[|p.texts| - 1].end)
  {}

  /** What the loader has decided once it has seen the unterminated last line. */
  ghost predicate TailLoaded(c: Codec, p: Parts, file: Bytes, history: seq<Entry>, needsNewline: bool,
                             truncate: Option<nat>) {
    && p.tail != [] && |p.tail| <= |file|
    && ParseLines(c, p.texts, 1).Some?
    && var entries, next := ParseLines(c, p.texts, 1).value, c.parse(p.tail);
       if next.Some? && next.value.cursor == |entries| + 1
       then history == entries + [next.value] && needsNewline && truncate == None
       else history == entries && truncate == Some(|file| - |p.tail|)
  }

  predicate IsNext(c: Codec, text: Bytes, n: nat) {
    c.parse(text).Some? && c.parse(text).value.cursor == n
  }

  /** What the next terminated line means for the loader. */
  lemma NextText(c: Codec, texts: seq<Bytes>, i: nat, entries: seq<Entry>)
    requires i < |texts| && ParseLines(c, texts[..i], 1) == Some(entries)
    ensures texts[i] == [] ==> ParseLines(c, texts[..i + 1], 1) == Some(entries)
    ensures texts[i] != [] && IsNext(c, texts[i], |entries| + 1) ==>
              ParseLines(c, texts[..i + 1], 1) == Some(entries + [c.parse(texts[i]).value])
    ensures texts[i] != [] && !IsNext(c, texts[i], |entries| + 1) ==> ParseLines(c, texts, 1) == None
  {
    var more := texts[i..];
    assert texts[..i + 1] == texts[..i] + [texts[i]] && texts == texts[..i] + more;
    ParseLinesAppend(c, texts[..i], [texts[i]], 1);
    ParseLinesAppend(c, texts[..i], more, 1);
    ParseFirst(c, more, |entries| + 1);
    ParseFirst(c, [texts[i]], |entries| + 1);
    hide ParseLines;
    assert entries + [] == entries;
  }

  lemma ParseFirst(c: Codec, texts: seq<Bytes>, first: nat)
    requires texts != []
    ensures texts[0] != [] && !IsNext(c, texts[0], first) ==> ParseLines(c, texts, first) == None
    ensures |texts| == 1 && texts[0] == [] ==> ParseLines(c, texts, first) == Some([])
    ensures |texts| == 1 && texts[0] != [] && IsNext(c, texts[0], first) ==>
              ParseLines(c, texts, first) == Some([c.parse(texts[0]).value])
  {
    if |texts| == 1 {
      assert texts[1..] == [];
      assert ParseLines(c, texts[1..], first + 1) == Some([]) == ParseLines(c, texts[1..], first);
      if texts[0] != [] && IsNext(c, texts[0], first) { var e := c.parse(texts[0]).value; assert [e] + [] == [e]; }
    }
  }

  lemma RefusedText(c: Codec, file: Bytes)
    requires ParseLines(c, Split(file).texts, 1) == None
    ensures Recover(c, file) == Refused
  {}

  lemma LoadedFile(c: Codec, file: Bytes, history: seq<Entry>, needsNewline: bool, truncate: Option<nat>)
    requires var p := Split(file);
             if p.tail == [] then ParseLines(c, p.texts, 1) == Some(history) && !needsNewline && truncate == None
             else TailLoaded(c, p, file, history, needsNewline, truncate)
    ensures truncate.Some? ==> truncate.value <= |file|
    ensures Recover(c, file) ==
              Recovered(history, if truncate.Some? then file[..truncate.value]
                                 else if needsNewline then file + [NEWLINE] else file)
    ensures Contiguous(history, 1)
  {
    var p := Split(file);
    ParseLinesContiguous(c, p.texts, 1);
    if p.tail == [] { assert file[..|file| - |p.tail|] == file; }
  }

  lemma ReadStep(c: Codec, texts: seq<Bytes>, i: nat, cursor: nat, tenant: Option<string>, left: Option<nat>)
    requires i < |texts| && left != Some(0)
    ensures var after := if left == None then None else Some(left.value - 1);
            ReadTexts(c, texts[i..], cursor, tenant, left) ==
            if texts[i] == [] then ReadTexts(c, texts[i + 1..], cursor, tenant, left)
            else match c.parse(texts[i])
                 case None => None
                 case Some(e) =>
                   if Matches(e, cursor, tenant) then Joined([e], ReadTexts(c, texts[i + 1..], cursor, tenant, after))
                   else ReadTexts(c, texts[i + 1..], cursor, tenant, left)
  {
    assert texts[i..][1..] == texts[i + 1..];
  }

  lemma ReadEnds(c: Codec, texts: seq<Bytes>, i: nat, cursor: nat, tenant: Option<string>, left: Option<nat>,
                 entries: seq<Entry>)
    requires i <= |texts| && (i == |texts| || left == Some(0))
    ensures Joined(entries, ReadTexts(c, texts[i..], cursor, tenant, left)) == Some(entries)
  {
    assert entries + [] == entries;
  }

  /** The file journal: the history is what this instance has accepted or loaded; only the
      index of events, not the entries, stays in memory. */
  class FileJournal {
    const codec: Codec
    var file: Bytes
    var checkpointFile: Option<nat>
    var eventCursors: map<EventKey, EventIndex>
    var nextCursorValue: nat
    var lastCheckpoint: Option<nat>
    ghost var history: seq<Entry>

    ghost predicate Valid()
      reads this
    {
      && ValidCodec(codec)
      && Contiguous(history, 1)
      && nextCursorValue == |history| + 1 && |history| <= MAX_SAFE_INTEGER
      && eventCursors == IndexOf(history)
      && (lastCheckpoint.Some? ==> lastCheckpoint.value <= |history|)
    }

    /** Everything accepted is in the file, and nothing else. */
    ghost predicate Intact()
      reads this
    {
      Valid() && file == Log(codec, history) && KeysUnique(history) && checkpointFile == lastCheckpoint
    }

    constructor (codec: Codec, file: Bytes, checkpointFile: Option<nat>)
      requires ValidCodec(codec)
      ensures this.codec == codec && this.file == file && this.checkpointFile == checkpointFile
      ensures Valid() && history == [] && lastCheckpoint == None
      ensures file == [] && checkpointFile == None ==> Intact()
    {
      this.codec, this.file, this.checkpointFile := codec, file, checkpointFile;
      eventCursors, nextCursorValue, lastCheckpoint, history := map[], 1, None, [];
    }

    /** Opens an existing file. On failure the constructor throws and no journal exists. */
    method Load() returns (ok: bool)
      requires Valid() && history == [] && lastCheckpoint == None
      modifies this
      ensures checkpointFile == old(checkpointFile)
      ensures ok ==>
                Valid() && Recover(codec, old(file)) == Recovered(history, file) && lastCheckpoint == checkpointFile
      ensures var r := Recover(codec, old(file));
              ok <==> r.Recovered? && (checkpointFile.Some? ==> checkpointFile.value <= |r.entries|)
    {
      hide Lines, LinesMatch, IndexOf, Log, KeysUnique, Split, Recover, Contiguous;
      var found := LoadEntries();
      if !found { return false; }
      if checkpointFile != None { lastCheckpoint := checkpointFile; }
      ok := lastCheckpoint == None || lastCheckpoint.value <= nextCursorValue - 1;
    }

    method LoadEntries() returns (ok: bool)
      requires Valid() && history == [] && lastCheckpoint == None
      modifies this`file, this`eventCursors, this`nextCursorValue, this`history
      ensures ok ==> Valid()
      ensures ok <==> Recover(codec, old(file)).Recovered?
      ensures ok ==> Recover(codec, old(file)) == Recovered(history, file)
    {
      hide Lines, LinesMatch, IndexOf, Log, KeysUnique, Split, Recover, Contiguous;
      var lines := JournalLines(file);
      ghost var p := Split(file);
      LinesAreTexts(file);
      LinesFacts(lines, p, file);
      var validBytes, needsTrailingNewline := 0, false;
      var truncateBytes: Option<nat> := None;
      var i := 0;
      while i < |lines| && truncateBytes == None
        invariant 0 <= i <= |lines| && file == old(file)
        invariant ValidCodec(codec) && nextCursorValue == |history| + 1 && |history| <= MAX_SAFE_INTEGER
        invariant eventCursors == IndexOf(history)
        invariant i <= |p.texts| ==> ParseLines(codec, p.texts[..i], 1) == Some(history)
        invariant i <= |p.texts| ==>
                    && validBytes == (if i == 0 then 0 else lines[i - 1].end) && !needsTrailingNewline
                    && truncateBytes == None
        invariant i > |p.texts| ==> TailLoaded(codec, p, file, history, needsTrailingNewline, truncateBytes)
      {
        var item := lines[i];
        if i < |p.texts| { NextText(codec, p.texts, i, history); } else { assert p.texts[..i] == p.texts; }
        i := i + 1;
        if |item.text| == 0 {
          validBytes := item.end;
          continue;
        }
        var parsed := codec.parse(item.text);
        if parsed == None || parsed.value.cursor != nextCursorValue {
          if item.terminated {
            RefusedText(codec, file);
            return false;
          }
          truncateBytes := Some(validBytes);
        } else {
          var entry := parsed.value;
          IndexPush(history, entry);
          if entry.EventEntry? { eventCursors := eventCursors[KeyOf(entry.event) := IndexEntry(entry)]; }
          history := history + [entry];
          nextCursorValue := nextCursorValue + 1;
          validBytes := item.end;
          needsTrailingNewline := !item.terminated;
        }
      }
      assert i == |p.texts| ==> p.texts[..i] == p.texts;
      LoadedFile(codec, file, history, needsTrailingNewline, truncateBytes);
      if truncateBytes != None {
        file := file[..truncateBytes.value];
      } else if needsTrailingNewline {
        file := file + [NEWLINE];
      }
      ok := true;
    }

    /** One append to the file; bytes is how much of the line reaches it. */
    method PersistEntry(e: Entry, bytes: nat) returns (ok: bool)
      modifies this`file
      ensures file == old(file) + Written(codec, e, bytes)
      ensures ok <==> bytes >= |PrintedLine(codec, e)|
    {
      ok := bytes >= |PrintedLine(codec, e)|;
      file := file + Written(codec, e, bytes);
    }

    method AppendEvent(event: Event, bytes: nat) returns (r: Append)
      requires Valid()
      modifies this`file, this`eventCursors, this`nextCursorValue, this`history
      ensures Valid() && (old(KeysUnique(history)) ==> KeysUnique(history))
      ensures var key := KeyOf(event);
              if key in old(eventCursors) then
                && file == old(file) && history == old(history)
                && r == (if old(eventCursors)[key].requestDigest == event.requestDigest &&
                         old(eventCursors)[key].eventId == event.eventId
                         then Appended(old(eventCursors)[key].cursor) else Conflict)
              else if old(nextCursorValue) > MAX_SAFE_INTEGER then
                file == old(file) && history == old(history) && r == CursorsExhausted
              else
                var e := EventEntry(old(nextCursorValue), event);
                && history == old(history) + [e] && file == old(file) + Written(codec, e, bytes)
                && r == (if bytes >= |PrintedLine(codec, e)| then Appended(e.cursor) else PersistFailed)
      ensures history == old(history) <==> Known(old(history), event) || old(nextCursorValue) > MAX_SAFE_INTEGER
      ensures Known(old(history), event) ==>
                || (r.Appended? && exists i {:trigger history[i]} ::
                      0 <= i < |history| && SameEvent(history[i], event) && history[i].cursor == r.cursor)
                || (r == Conflict && exists i {:trigger history[i]} ::
                      0 <= i < |history| && SameKey(history[i], event) && !SameEvent(history[i], event))
      ensures old(Intact()) && r != PersistFailed ==> Intact()
    {
      hide IndexOf, Log, KeysUnique, Known, SameEvent;
      IndexKnows(history, event);
      var key := KeyOf(event);
      if key in eventCursors {
        var previous := eventCursors[key];
        if previous.requestDigest != event.requestDigest || previous.eventId != event.eventId { return Conflict; }
        return Appended(previous.cursor);
      }
      if nextCursorValue > MAX_SAFE_INTEGER { return CursorsExhausted; }
      var entry := EventEntry(nextCursorValue, event);
      AppendedFacts(codec, history, entry);
      nextCursorValue := nextCursorValue + 1;
      eventCursors := eventCursors[key := EventIndex(entry.cursor, event.eventId, event.requestDigest)];
      history := history + [entry];
      var ok := PersistEntry(entry, bytes);
      r := if ok then Appended(entry.cursor) else PersistFailed;
    }

    method AppendDecision(tenantId: string, decision: Bytes, bytes: nat) returns (r: Append)
      requires Valid()
      modifies this`file, this`nextCursorValue, this`history
      ensures Valid() && (old(KeysUnique(history)) ==> KeysUnique(history))
      ensures if old(nextCursorValue) > MAX_SAFE_INTEGER then
                file == old(file) && history == old(history) && r == CursorsExhausted
              else
                var e := DecisionEntry(old(nextCursorValue), tenantId, decision);
                && history == old(history) + [e] && file == old(file) + Written(codec, e, bytes)
                && r == (if bytes >= |PrintedLine(codec, e)| then Appended(e.cursor) else PersistFailed)
      ensures old(Intact()) && r != PersistFailed ==> Intact()
    {
      hide IndexOf, Log, KeysUnique;
      if nextCursorValue > MAX_SAFE_INTEGER { return CursorsExhausted; }
      var entry := DecisionEntry(nextCursorValue, tenantId, decision);
      AppendedFacts(codec, history, entry);
      nextCursorValue := nextCursorValue + 1;
      history := history + [entry];
      var ok := PersistEntry(entry, bytes);
      r := if ok then Appended(entry.cursor) else PersistFailed;
    }

    /** Reads the file from the start, keeping what matches until max entries are found. */
    method ReadEntries(cursor: nat, tenant: Option<string>, max: Option<nat>) returns (r: Option<seq<Entry>>)
      requires max != Some(0)
      ensures r == ReadTexts(codec, Texts(file), cursor, tenant, max)
      ensures Intact() ==> r == Some(Take(Selected(history, cursor, tenant), max))
      ensures Intact() ==> ReadTells(history, cursor, tenant, max, r.value)
    {
      hide Lines, LinesMatch, IndexOf, Log, KeysUnique, Split, ReadTexts, Texts, ReadTells, Selected, Contiguous;
      if Intact() { TakenTells(history, cursor, tenant, max); }
      var lines := JournalLines(file);
      LinesAreTexts(file);
      ghost var texts := Texts(file);
      if Intact() { IntactReads(codec, file, history, cursor, tenant, max); }
      var entries: seq<Entry> := [];
      var i := 0;
      ghost var left := max;
      JoinedTwice([], [], ReadTexts(codec, texts, cursor, tenant, max));
      assert texts[0..] == texts;
      while i < |lines|
        invariant 0 <= i <= |lines|
        invariant left == (if max == None then None else Some(max.value - |entries|)) && left != Some(0)
        invariant max != None ==> |entries| < max.value
        invariant ReadTexts(codec, texts, cursor, tenant, max) ==
                    Joined(entries, ReadTexts(codec, texts[i..], cursor, tenant, left))
      {
        var line := lines[i].text;
        ReadStep(codec, texts, i, cursor, tenant, left);
        i := i + 1;
        if |line| == 0 { continue; }
        match codec.parse(line) {
          case None => return None;
          case Some(entry) =>
            if entry.cursor <= cursor || (tenant != None && TenantOf(entry) != tenant.value) { continue; }
            JoinedTwice(entries, [entry],
                        ReadTexts(codec, texts[i..], cursor, tenant,
                                  if max == None then None else Some(left.value - 1)));
            entries := entries + [entry];
            left := if max == None then None else Some(left.value - 1);
            if max != None && |entries| >= max.value {
              ReadEnds(codec, texts, i, cursor, tenant, left, entries);
              return Some(entries);
            }
        }
      }
      ReadEnds(codec, texts, i, cursor, tenant, left, entries);
      r := Some(entries);
    }

    method ReadPage(cursor: nat, tenant: Option<string>, limit: nat) returns (r: ReadResult)
      requires limit <= MAX_SAFE_INTEGER
      ensures r == InvalidLimit <==> limit < 1
      ensures Intact() && limit >= 1 ==> r == GotPage(PageOf(history, cursor, tenant, limit))
      ensures Intact() && limit >= 1 ==> PageTells(history, cursor, tenant, limit, r.page)
    {
      hide PageTells, ReadTells, ReadTexts, Texts, Take, ValidCodec;
      if Intact() && limit >= 1 { PageMeans(history, cursor, tenant, limit); }
      hide IndexOf, Log, KeysUnique, Selected, Contiguous;
      if limit < 1 { return InvalidLimit; }
      var scanLimit := if limit == MAX_SAFE_INTEGER then limit else limit + 1;
      var selected := ReadEntries(cursor, tenant, Some(scanLimit));
      if selected == None { return Malformed; }
      var hasMore := |selected.value| > limit;
      var entries := if hasMore then selected.value[..limit] else selected.value;
      if Intact() { PageFromScan(history, cursor, tenant, limit, scanLimit); }
      r := GotPage(Page(entries, if |entries| == 0 then cursor else entries[|entries| - 1].cursor, hasMore));
    }

    /** Records a checkpoint; it may not run ahead of the journal or move backwards. */
    method Checkpoint(cursor: nat) returns (ok: bool)
      requires Valid()
      modifies this`lastCheckpoint, this`checkpointFile
      ensures Valid() && (old(Intact()) ==> Intact())
      ensures ok <==> cursor <= |history| && (old(lastCheckpoint).Some? ==> old(lastCheckpoint).value <= cursor)
      ensures ok ==> lastCheckpoint == checkpointFile == Some(cursor)
      ensures !ok ==> lastCheckpoint == old(lastCheckpoint) && checkpointFile == old(checkpointFile)
    {
      if cursor > nextCursorValue - 1 { return false; }
      if lastCheckpoint != None && cursor < lastCheckpoint.value { return false; }
      lastCheckpoint := Some(cursor);
      checkpointFile := Some(cursor);
      ok := true;
    }
  }

  lemma AppendedFacts(c: Codec, history: seq<Entry>, e: Entry)
    requires Contiguous(history, 1) && e.cursor == |history| + 1
    ensures Contiguous(history + [e], 1)
    ensures IndexOf(history + [e]) == Indexed(IndexOf(history), e)
    ensures Log(c, history + [e]) == Log(c, history) + PrintedLine(c, e)
    ensures KeysUnique(history) && (e.EventEntry? ==> KeyOf(e.event) !in IndexOf(history)) ==> KeysUnique(history + [e])
  {
    IndexPush(history, e);
    LogPush(c, history, e);
    if KeysUnique(history) && (e.EventEntry? ==> KeyOf(e.event) !in IndexOf(history)) { KeysStayUnique(history, e); }
  }

  lemma IntactReads(c: Codec, file: Bytes, history: seq<Entry>, cursor: nat, tenant: Option<string>, max: Option<nat>)
    requires ValidCodec(c) && file == Log(c, history)
    ensures ReadTexts(c, Texts(file), cursor, tenant, max) == Some(Take(Selected(history, cursor, tenant), max))
  {
    assert file + [] == file;
    LogSplits(c, history, []);
    SplitTail([]);
    assert Printed(c, history) + [] == Printed(c, history);
    ReadPrinted(c, history, cursor, tenant, max);
  }

  /** Scanning one match more than the limit tells whether there is another page. */
  lemma PageFromScan(history: seq<Entry>, cursor: nat, tenant: Option<string>, limit: nat, scanLimit: nat)
    requires Contiguous(history, 1) && |history| <= MAX_SAFE_INTEGER
    requires 1 <= limit <= MAX_SAFE_INTEGER && scanLimit == (if limit == MAX_SAFE_INTEGER then limit else limit + 1)
    ensures var scanned := Take(Selected(history, cursor, tenant), Some(scanLimit));
            var page := PageOf(history, cursor, tenant, limit);
            && page.hasMore == (|scanned| > limit)
            && page.entries == (if |scanned| > limit then scanned[..limit] else scanned)
  {
    SelectedInOrder(history, cursor, tenant, 1);
  }

  // ---- reopening after failed appends ---------------------------------------------------

  /** One append of a line of which only some bytes may reach the file. */
  datatype Attempt = Attempt(entry: Entry, bytes: nat)

  predicate Whole(c: Codec, a: Attempt) {
    a.bytes >= |PrintedLine(c, a.entry)|
  }

  function AfterAttempts(c: Codec, attempts: seq<Attempt>): Bytes {
    if attempts == [] then [] else Written(c, attempts[0].entry, attempts[0].bytes) + AfterAttempts(c, attempts[1..])
  }

  function Attempted(attempts: seq<Attempt>): seq<Entry> {
    seq(|attempts|, i requires 0 <= i < |attempts| => attempts[i].entry)
  }

  /** Texts glued together from two or more nonempty prefixes of printed entries never parse. */
  ghost predicate SelfDelimiting(c: Codec) {
    forall attempts: seq<Attempt>, i: int, j: int
      {:trigger c.parse(AfterAttempts(c, attempts)), attempts[i], attempts[j]} ::
      0 <= i < j < |attempts| && attempts[i].bytes > 0 && attempts[j].bytes > 0 && NoneWhole(c, attempts) ==>
        c.parse(AfterAttempts(c, attempts)) == None
  }

  ghost predicate NoneWhole(c: Codec, attempts: seq<Attempt>) {
    forall i {:trigger attempts[i]} :: 0 <= i < |attempts| ==> !Whole(c, attempts[i])
  }

  /** No append succeeded after one that failed. */
  ghost predicate FailuresLast(c: Codec, attempts: seq<Attempt>) {
    forall i, j {:trigger attempts[i], attempts[j]} :: 0 <= i < j < |attempts| && Whole(c, attempts[j]) ==>
      Whole(c, attempts[i])
  }

  lemma {:induction false} GluedHasNoNewline(c: Codec, attempts: seq<Attempt>)
    requires ValidCodec(c) && NoneWhole(c, attempts)
    ensures NEWLINE !in AfterAttempts(c, attempts)
    ensures (forall i :: 0 <= i < |attempts| ==> attempts[i].bytes == 0) ==> AfterAttempts(c, attempts) == []
  {
    if attempts != [] {
      GluedHasNoNewline(c, attempts[1..]);
      var a := attempts[0];
      assert !Whole(c, a);
      assert Written(c, a.entry, a.bytes) == c.encode(a.entry)[..a.bytes];
    }
  }

  lemma {:induction false} AttemptsAppend(c: Codec, attempts: seq<Attempt>, more: seq<Attempt>)
    ensures AfterAttempts(c, attempts + more) == AfterAttempts(c, attempts) + AfterAttempts(c, more)
  {
    if attempts == [] {
      assert attempts + more == more;
    } else {
      assert (attempts + more)[1..] == attempts[1..] + more;
      AttemptsAppend(c, attempts[1..], more);
    }
  }

  lemma GluedNotNext(c: Codec, torn: seq<Attempt>, e: Entry, next: nat)
    requires ValidCodec(c) && SelfDelimiting(c) && NoneWhole(c, torn) && e.cursor > next
    ensures var glued := AfterAttempts(c, torn) + c.encode(e);
            NEWLINE !in glued && glued != [] && !IsNext(c, glued, next)
  {
    var last := [Attempt(e, |c.encode(e)|)];
    var all := torn + last;
    assert Written(c, e, |c.encode(e)|) == c.encode(e);
    assert AfterAttempts(c, last) == c.encode(e) + AfterAttempts(c, last[1..]) == c.encode(e);
    AttemptsAppend(c, torn, last);
    GluedHasNoNewline(c, torn);
    hide AfterAttempts, Written;
    assert NoneWhole(c, all);
    if i :| 0 <= i < |torn| && torn[i].bytes > 0 {
      assert all[i] == torn[i] && all[|torn|].bytes > 0;
      assert c.parse(AfterAttempts(c, all)) == None;
    } else {
      assert AfterAttempts(c, torn) + c.encode(e) == c.encode(e);
    }
  }

  lemma Regroup(a: Bytes, b: Bytes, rest: Bytes)
    ensures a + (b + [NEWLINE] + rest) == a + b + [NEWLINE] + rest
  {}

  /** A line glued onto torn ones is not the next entry: the file is refused. */
  lemma GluedText(c: Codec, entries: seq<Entry>, glued: Bytes, rest: Bytes)
    requires ValidCodec(c) && Contiguous(entries, 1) && NEWLINE !in glued && glued != []
    requires !IsNext(c, glued, |entries| + 1)
    ensures Recover(c, Log(c, entries) + (glued + [NEWLINE] + rest)) == Refused
  {
    SplitLine(glued, rest);
    var after := glued + [NEWLINE] + rest;
    LogSplits(c, entries, after);
    PrintedParse(c, entries, 1);
    ParseLinesAppend(c, Printed(c, entries), Split(after).texts, 1);
    ParseFirst(c, Split(after).texts, |entries| + 1);
  }

  ghost predicate SucceededIn(c: Codec, attempts: seq<Attempt>, entries: seq<Entry>) {
    forall k {:trigger attempts[k]} :: 0 <= k < |attempts| && Whole(c, attempts[k]) ==> attempts[k].entry in entries
  }

  /** After any appends, some of which failed part of the way, the file can be reopened if
      and only if no append succeeded after one that failed; and then every entry whose
      append succeeded is recovered. */
  lemma {:induction false} ReopenIff(c: Codec, entries: seq<Entry>, attempts: seq<Attempt>)
    requires ValidCodec(c) && SelfDelimiting(c) && Contiguous(entries + Attempted(attempts), 1)
    ensures var r := Recover(c, Log(c, entries) + AfterAttempts(c, attempts));
            && (r.Recovered? <==> FailuresLast(c, attempts))
            && (r.Recovered? ==> entries <= r.entries && SucceededIn(c, attempts, r.entries))
    decreases |attempts|
  {
    assert Contiguous(entries, 1) by {
      assert forall i :: 0 <= i < |entries| ==> (entries + Attempted(attempts))[i] == entries[i];
    }
    hide Recover, Log, AfterAttempts, SelfDelimiting, Contiguous;
    if attempts == [] {
      assert AfterAttempts(c, attempts) == [] by { GluedHasNoNewline(c, attempts); }
      TornTail(c, entries, []);
    } else if Whole(c, attempts[0]) {
      var e, rest := attempts[0].entry, attempts[1..];
      FoldWhole(c, entries, attempts);
      ReopenIff(c, entries + [e], rest);
      FailuresLastTail(c, attempts);
      hide FailuresLast, ValidCodec;
      var r := Recover(c, Log(c, entries + [e]) + AfterAttempts(c, rest));
      if r.Recovered? { SucceededMore(c, entries, attempts, r.entries); }
    } else if k :| 0 <= k < |attempts| && Whole(c, attempts[k]) {
      WholeAfterTorn(c, entries, attempts, k);
    } else {
      GluedHasNoNewline(c, attempts);
      TornTail(c, entries, AfterAttempts(c, attempts));
    }
  }

  lemma FoldWhole(c: Codec, entries: seq<Entry>, attempts: seq<Attempt>)
    requires attempts != [] && Whole(c, attempts[0])
    ensures var e, rest := attempts[0].entry, attempts[1..];
            && entries + Attempted(attempts) == entries + [e] + Attempted(rest)
            && Log(c, entries) + AfterAttempts(c, attempts) == Log(c, entries + [e]) + AfterAttempts(c, rest)
  {
    var e, rest := attempts[0].entry, attempts[1..];
    assert Attempted(attempts) == [e] + Attempted(rest);
    LogPush(c, entries, e);
    FirstAttempt(c, attempts);
    hide AfterAttempts, Log;
    BytesAssoc(Log(c, entries), PrintedLine(c, e), AfterAttempts(c, rest));
  }

  lemma BytesAssoc(a: Bytes, b: Bytes, c: Bytes)
    ensures (a + b) + c == a + (b + c)
  {}

  lemma SucceededMore(c: Codec, entries: seq<Entry>, attempts: seq<Attempt>, found: seq<Entry>)
    requires attempts != [] && entries + [attempts[0].entry] <= found && SucceededIn(c, attempts[1..], found)
    ensures entries <= found && SucceededIn(c, attempts, found)
  {
    assert found[|entries|] == attempts[0].entry;
    forall k | 0 <= k < |attempts| && Whole(c, attempts[k]) ensures attempts[k].entry in found {
      if k > 0 { assert attempts[1..][k - 1] == attempts[k]; }
    }
  }

  lemma FailuresLastTail(c: Codec, attempts: seq<Attempt>)
    requires attempts != [] && Whole(c, attempts[0])
    ensures FailuresLast(c, attempts) <==> FailuresLast(c, attempts[1..])
  {
    var rest := attempts[1..];
    if FailuresLast(c, rest) {
      forall i, j | 0 <= i < j < |attempts| && Whole(c, attempts[j]) ensures Whole(c, attempts[i]) {
        if i > 0 { assert rest[i - 1] == attempts[i] && rest[j - 1] == attempts[j]; }
      }
    }
    if FailuresLast(c, attempts) {
      forall i, j | 0 <= i < j < |rest| && Whole(c, rest[j]) ensures Whole(c, rest[i]) {
        assert rest[i] == attempts[i + 1] && rest[j] == attempts[j + 1];
      }
    }
  }

  lemma WholeAfterTorn(c: Codec, entries: seq<Entry>, attempts: seq<Attempt>, j: nat)
    requires ValidCodec(c) && SelfDelimiting(c) && Contiguous(entries, 1)
    requires Contiguous(entries + Attempted(attempts), 1)
    requires j < |attempts| && Whole(c, attempts[j]) && !Whole(c, attempts[0])
    ensures Recover(c, Log(c, entries) + AfterAttempts(c, attempts)) == Refused && !FailuresLast(c, attempts)
  {
    FirstWhole(c, attempts, j);
    var k: nat :| 0 < k <= j && Whole(c, attempts[k]) && NoneWhole(c, attempts[..k]);
    assert !FailuresLast(c, attempts);
    assert (entries + Attempted(attempts))[|entries| + k] == attempts[k].entry;
    assert attempts[k].entry.cursor == 1 + |entries| + k;
    hide Recover, Log, SelfDelimiting, ValidCodec, Contiguous, NoneWhole, FailuresLast;
    var torn, e, rest := attempts[..k], attempts[k].entry, attempts[k + 1..];
    AttemptsAround(c, attempts, k);
    GluedNotNext(c, torn, e, |entries| + 1);
    hide AfterAttempts, Whole;
    GluedText(c, entries, AfterAttempts(c, torn) + c.encode(e), AfterAttempts(c, rest));
  }

  lemma AttemptsAround(c: Codec, attempts: seq<Attempt>, k: nat)
    requires k < |attempts| && Whole(c, attempts[k])
    ensures AfterAttempts(c, attempts) ==
            AfterAttempts(c, attempts[..k]) + c.encode(attempts[k].entry) + [NEWLINE] +
              AfterAttempts(c, attempts[k + 1..])
  {
    FirstAttempt(c, attempts[k..]);
    hide AfterAttempts, Written, Whole;
    assert attempts == attempts[..k] + attempts[k..];
    AttemptsAppend(c, attempts[..k], attempts[k..]);
    assert attempts[k..][1..] == attempts[k + 1..];
    Regroup(AfterAttempts(c, attempts[..k]), c.encode(attempts[k].entry), AfterAttempts(c, attempts[k + 1..]));
  }

  lemma FirstAttempt(c: Codec, attempts: seq<Attempt>)
    requires attempts != [] && Whole(c, attempts[0])
    ensures AfterAttempts(c, attempts) == c.encode(attempts[0].entry) + [NEWLINE] + AfterAttempts(c, attempts[1..])
  {
    var e, bytes := attempts[0].entry, attempts[0].bytes;
    assert bytes == |PrintedLine(c, e)| ==> Written(c, e, bytes) == PrintedLine(c, e);
  }

  lemma {:induction false} FirstWhole(c: Codec, attempts: seq<Attempt>, j: nat)
    requires j < |attempts| && Whole(c, attempts[j]) && !Whole(c, attempts[0])
    ensures exists k: nat :: 0 < k <= j && Whole(c, attempts[k]) && NoneWhole(c, attempts[..k])
  {
    if NoneWhole(c, attempts[..j]) {
    } else {
      var i :| 0 <= i < j && Whole(c, attempts[..j][i]);
      assert attempts[i] == attempts[..j][i];
      FirstWhole(c, attempts, i);
    }
  }

  /** Ending the process after a failed append is safe: reopening recovers every earlier
      entry, and the one that failed only if all its text had been written. */
  lemma ReopenAfterFailure(c: Codec, entries: seq<Entry>, e: Entry, bytes: nat)
    requires ValidCodec(c) && Contiguous(entries + [e], 1) && bytes < |PrintedLine(c, e)|
    ensures var kept := if bytes == |c.encode(e)| then entries + [e] else entries;
            Recover(c, Log(c, entries) + Written(c, e, bytes)) == Recovered(kept, Log(c, kept))
  {
    assert Contiguous(entries, 1) by {
      assert forall i :: 0 <= i < |entries| ==> (entries + [e])[i] == entries[i];
    }
    assert (entries + [e])[|entries|] == e;
    assert Written(c, e, bytes) == c.encode(e)[..bytes];
    TornTail(c, entries, Written(c, e, bytes));
    if bytes == |c.encode(e)| {
      assert Written(c, e, bytes) == c.encode(e);
      LogPush(c, entries, e);
      assert Log(c, entries) + c.encode(e) + [NEWLINE] == Log(c, entries + [e]);
    }
  }

  /** After a crash at any byte, an event that is sent again is answered with its old cursor
      if it was recovered, and is otherwise unknown, so that it is appended again. */
  lemma ResendAfterCrash(c: Codec, entries: seq<Entry>, cut: nat, i: nat)
    requires ValidCodec(c) && Contiguous(entries, 1) && KeysUnique(entries) && cut <= |Log(c, entries)|
    requires i < |entries| && entries[i].EventEntry?
    ensures var r, key := Recover(c, Log(c, entries)[..cut]), KeyOf(entries[i].event);
            && r.Recovered? && KeysUnique(r.entries)
            && (key in IndexOf(r.entries) <==> i < Complete(c, entries, cut))
            && (key in IndexOf(r.entries) ==> IndexOf(r.entries)[key] == IndexEntry(entries[i]))
  {
    CrashRecovery(c, entries, cut);
    hide Recover, Log, Complete, ValidCodec, Contiguous;
    PrefixIndex(entries, Complete(c, entries, cut), i);
  }

  /** The index of a prefix knows exactly the events of the prefix. */
  lemma PrefixIndex(entries: seq<Entry>, m: nat, i: nat)
    requires m <= |entries| && i < |entries| && KeysUnique(entries) && entries[i].EventEntry?
    ensures var key := KeyOf(entries[i].event);
            && KeysUnique(entries[..m]) && (key in IndexOf(entries[..m]) <==> i < m)
            && (key in IndexOf(entries[..m]) ==> IndexOf(entries[..m])[key] == IndexEntry(entries[i]))
  {
    var key := KeyOf(entries[i].event);
    IndexExact(entries[..m], key);
    assert forall j :: 0 <= j < m ==> entries[..m][j] == entries[j];
    hide IndexOf;
    assert HasKey(entries[i], key);
    assert forall j :: 0 <= j < |entries| && HasKey(entries[j], key) ==> j == i;
  }

  /** A new event is sent to an intact journal and, whatever came of that, sent again. The second
      time it is always answered with its cursor and nothing is written: it is on disk, and would
      be found by reopening the file, exactly if all its text had been written the first time. */
  method SendTwice(journal: FileJournal, event: Event, bytes: nat, again: nat) returns (first: Append, second: Append)
    requires journal.Intact() && KeyOf(event) !in journal.eventCursors
    requires journal.nextCursorValue <= MAX_SAFE_INTEGER
    modifies journal
    ensures journal.Valid()
    ensures var e := EventEntry(old(journal.nextCursorValue), event);
            && first == (if bytes < |PrintedLine(journal.codec, e)| then PersistFailed else Appended(e.cursor))
            && second == Appended(e.cursor)
            && journal.file == old(journal.file) + Written(journal.codec, e, bytes)
            && OnDisk(journal.codec, journal.file, KeyOf(event), bytes >= |journal.codec.encode(e)|)
  {
    hide IndexOf, Log, KeysUnique, Contiguous, Recover;
    ghost var history, c, e := journal.history, journal.codec, EventEntry(journal.nextCursorValue, event);
    AppendedFacts(c, history, e);
    SentOnDisk(c, history, e, bytes);
    first := journal.AppendEvent(event, bytes);
    second := journal.AppendEvent(event, again);
  }

  /** Reopening the file works, and finds an event with this key or finds none. */
  ghost predicate OnDisk(c: Codec, file: Bytes, key: EventKey, found: bool) {
    var r := Recover(c, file);
    r.Recovered? && (key in IndexOf(r.entries) <==> found)
  }

  lemma SentOnDisk(c: Codec, history: seq<Entry>, e: Entry, bytes: nat)
    requires ValidCodec(c) && Contiguous(history + [e], 1) && e.EventEntry? && KeyOf(e.event) !in IndexOf(history)
    ensures OnDisk(c, Log(c, history) + Written(c, e, bytes), KeyOf(e.event), bytes >= |c.encode(e)|)
  {
    hide IndexOf, Log, Recover, Contiguous;
    IndexPush(history, e);
    if bytes < |PrintedLine(c, e)| {
      ReopenAfterFailure(c, history, e, bytes);
    } else {
      LogPush(c, history, e);
      TornTail(c, history + [e], []);
      assert Log(c, history + [e]) + [] == Log(c, history) + Written(c, e, bytes);
    }
  }
}
