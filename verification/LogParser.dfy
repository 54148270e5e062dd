/** The line-driven parser of a benchmark log, against a definition that reads
    each record off the lines behind its marker. */
module LogParser {
  import opened Prelude
  import opened Decimal
  import opened LogText

  /** The payload of an observer line; times count epoch milliseconds. */
  datatype Observer = Observer(
    prefillTokenPerSec: real,
    decodeTokenPerSec: Option<real>,
    promptTokens: int,
    generatedTokens: int,
    modelLoadStartMs: int,
    inferenceEndMs: int)

  /** `observer` and `rawLine` are missing when the marker was followed by
      nothing. */
  datatype Record = Record(
    tag: string,
    rep: int,
    lineNumber: nat,
    rawLine: Option<string>,
    observer: Option<Observer>)

  datatype Reason = BadRepetition | NoMarker | BadJson | UnrecognizedLine

  datatype ParseError = ParseError(lineNumber: nat, reason: Reason)

  /** Reading a payload is a parameter. */
  type JsonReader = string -> Option<Observer>

  // ----- What the records of a log are ---------------------------------------

  function NextNonBlank(kinds: seq<LineKind>, i: nat): (j: nat)
    requires i <= |kinds|
    ensures i <= j <= |kinds|
    ensures forall k :: i <= k < j ==> kinds[k].BlankLine?
    ensures j < |kinds| ==> !kinds[j].BlankLine?
    decreases |kinds| - i
  {
    if i == |kinds| || !kinds[i].BlankLine? then i else NextNonBlank(kinds, i + 1)
  }

  /** Whether the observer line at `j` is the first line behind the marker at `m`. */
  predicate Answers(kinds: seq<LineKind>, m: nat, j: nat) {
    && m < j < |kinds| && kinds[m].Marker?
    && NextNonBlank(kinds, m + 1) == j && kinds[j].ObserverLine?
  }

  /** The record of the marker at `m`. */
  function RecordAt(kinds: seq<LineKind>, m: nat, json: JsonReader): Record
    requires m < |kinds| && kinds[m].Marker? && kinds[m].rep.Some?
  {
    var marker := kinds[m];
    var j := NextNonBlank(kinds, m + 1);
    if Answers(kinds, m, j) then
      Record(marker.tag, marker.rep.value, m + 1, Some(kinds[j].line), json(kinds[j].json))
    else Record(marker.tag, marker.rep.value, m + 1, None, None)
  }

  /** What makes a line acceptable where it stands. */
  ghost predicate LineOk(kinds: seq<LineKind>, i: nat, json: JsonReader)
    requires i < |kinds|
  {
    match kinds[i]
    case Marker(_, rep) => rep.Some?
    case Trailer => true
    case BlankLine => true
    case Unrecognized => false
    case ObserverLine(_, payload) => json(payload).Some? && exists m :: Answers(kinds, m, i)
  }

  ghost predicate LinesOk(kinds: seq<LineKind>, n: nat, json: JsonReader)
    requires n <= |kinds|
  {
    forall i :: 0 <= i < n ==> LineOk(kinds, i, json)
  }

  ghost predicate Accepted(kinds: seq<LineKind>, json: JsonReader) {
    LinesOk(kinds, |kinds|, json)
  }

  predicate MarkersOk(kinds: seq<LineKind>) {
    forall i :: 0 <= i < |kinds| && kinds[i].Marker? ==> kinds[i].rep.Some?
  }

  /** One record per marker, in order. */
  function RecordsFrom(kinds: seq<LineKind>, i: nat, json: JsonReader): seq<Record>
    requires i <= |kinds| && MarkersOk(kinds)
    decreases |kinds| - i
  {
    if i == |kinds| then []
    else if kinds[i].Marker? then [RecordAt(kinds, i, json)] + RecordsFrom(kinds, i + 1, json)
    else RecordsFrom(kinds, i + 1, json)
  }

  function RecordsOf(kinds: seq<LineKind>, json: JsonReader): seq<Record>
    requires MarkersOk(kinds)
  {
    RecordsFrom(kinds, 0, json)
  }

  // ----- The parser ---------------------------------------------------------

  /** A marker still waiting for its observer line. */
  datatype Pending = Pending(tag: string, rep: int, at: nat)

  /** The parser's state before line `idx`: the records so far and the marker
      pending are exactly the markers before it. */
  ghost predicate ParserInv(kinds: seq<LineKind>, idx: nat, records: seq<Record>, pending: Option<Pending>, json: JsonReader)
    requires idx <= |kinds|
  {
    var next := if pending.Some? then pending.value.at - 1 else idx;
    && LinesOk(kinds, idx, json)
    && (pending.Some? ==> IsPending(kinds, idx, pending.value))
    && (forall m: nat, j: nat :: m < idx <= j && m != next ==> !Answers(kinds, m, j))
    && (MarkersOk(kinds) ==> records + RecordsFrom(kinds, next, json) == RecordsOf(kinds, json))
  }

  ghost predicate IsPending(kinds: seq<LineKind>, idx: nat, p: Pending)
    requires idx <= |kinds|
  {
    && 1 <= p.at <= idx
    && kinds[p.at - 1] == Marker(p.tag, Some(p.rep))
    && NextNonBlank(kinds, p.at) >= idx
  }

  lemma {:induction false} SkipToNonBlank(kinds: seq<LineKind>, i: nat, idx: nat, json: JsonReader)
    requires i <= idx <= |kinds| && idx <= NextNonBlank(kinds, i) && MarkersOk(kinds)
    ensures RecordsFrom(kinds, i, json) == RecordsFrom(kinds, idx, json)
    ensures NextNonBlank(kinds, idx) == NextNonBlank(kinds, i)
    decreases idx - i
  {
    if i < idx {
      SkipToNonBlank(kinds, i + 1, idx, json);
    }
  }

  lemma FoundAt(kinds: seq<LineKind>, i: nat, idx: nat)
    requires i <= idx < |kinds| && NextNonBlank(kinds, i) >= idx && !kinds[idx].BlankLine?
    ensures NextNonBlank(kinds, i) == idx
  {
  }

  lemma RecordsSettle(kinds: seq<LineKind>, idx: nat, records: seq<Record>, m: nat, json: JsonReader)
    requires m < idx < |kinds| && kinds[m].Marker? && MarkersOk(kinds) && NextNonBlank(kinds, m + 1) == idx
    requires records + RecordsFrom(kinds, m, json) == RecordsOf(kinds, json)
    ensures (records + [RecordAt(kinds, m, json)]) + RecordsFrom(kinds, idx, json) == RecordsOf(kinds, json)
  {
    SkipToNonBlank(kinds, m + 1, idx, json);
    var record, rest := [RecordAt(kinds, m, json)], RecordsFrom(kinds, idx, json);
    assert RecordsFrom(kinds, m, json) == record + rest;
    assert (records + record) + rest == records + (record + rest);
  }

  /** A line that is not blank settles the marker pending before it. */
  lemma Settles(kinds: seq<LineKind>, idx: nat, records: seq<Record>, p: Pending, json: JsonReader)
    requires idx < |kinds| && ParserInv(kinds, idx, records, Some(p), json)
    requires !kinds[idx].BlankLine?
    ensures NextNonBlank(kinds, p.at) == idx
    ensures Answers(kinds, p.at - 1, idx) <==> kinds[idx].ObserverLine?
    ensures MarkersOk(kinds) ==>
      (records + [RecordAt(kinds, p.at - 1, json)]) + RecordsFrom(kinds, idx, json) == RecordsOf(kinds, json)
  {
    FoundAt(kinds, p.at, idx);
    if MarkersOk(kinds) {
      RecordsSettle(kinds, idx, records, p.at - 1, json);
    }
  }

  /** The records after the pending marker, if any, is settled by a line that is
      no observer line. */
  function Flushed(records: seq<Record>, pending: Option<Pending>): seq<Record> {
    match pending
    case None => records
    case Some(p) => records + [Record(p.tag, p.rep, p.at, None, None)]
  }

  lemma FlushKeeps(kinds: seq<LineKind>, idx: nat, records: seq<Record>, pending: Option<Pending>, json: JsonReader)
    requires idx < |kinds| && ParserInv(kinds, idx, records, pending, json)
    requires !kinds[idx].BlankLine? && !kinds[idx].ObserverLine?
    ensures ParserInv(kinds, idx, Flushed(records, pending), None, json)
  {
    if pending.Some? {
      Settles(kinds, idx, records, pending.value, json);
    }
  }

  lemma MarkerKeeps(kinds: seq<LineKind>, idx: nat, records: seq<Record>, json: JsonReader)
    requires idx < |kinds| && ParserInv(kinds, idx, records, None, json)
    requires kinds[idx].Marker? && kinds[idx].rep.Some?
    ensures
      var kind := kinds[idx];
      ParserInv(kinds, idx + 1, records, Some(Pending(kind.tag, kind.rep.value, idx + 1)), json)
  {
  }

  lemma PassOver(kinds: seq<LineKind>, idx: nat, records: seq<Record>, json: JsonReader)
    requires idx < |kinds| && ParserInv(kinds, idx, records, None, json)
    requires kinds[idx].Trailer? || kinds[idx].BlankLine?
    ensures ParserInv(kinds, idx + 1, records, None, json)
  {
  }

  lemma BlankKeeps(kinds: seq<LineKind>, idx: nat, records: seq<Record>, p: Pending, json: JsonReader)
    requires idx < |kinds| && ParserInv(kinds, idx, records, Some(p), json)
    requires kinds[idx].BlankLine?
    ensures ParserInv(kinds, idx + 1, records, Some(p), json)
  {
    NextBeyond(kinds, p.at, idx);
  }

  lemma NextBeyond(kinds: seq<LineKind>, i: nat, idx: nat)
    requires i <= idx < |kinds| && NextNonBlank(kinds, i) >= idx && kinds[idx].BlankLine?
    ensures NextNonBlank(kinds, i) > idx
  {
  }

  lemma ObserverKeeps(kinds: seq<LineKind>, idx: nat, records: seq<Record>, p: Pending, json: JsonReader)
    requires idx < |kinds| && ParserInv(kinds, idx, records, Some(p), json)
    requires kinds[idx].ObserverLine? && json(kinds[idx].json).Some?
    ensures
      var record := Record(p.tag, p.rep, p.at, Some(kinds[idx].line), json(kinds[idx].json));
      ParserInv(kinds, idx + 1, records + [record], None, json)
  {
    Settles(kinds, idx, records, p, json);
    assert Answers(kinds, p.at - 1, idx);
    assert LineOk(kinds, idx, json);
  }

  /** Every observer line behind a marker, and nothing else, is what a pending
      marker waits for. */
  lemma WaitedFor(kinds: seq<LineKind>, idx: nat, records: seq<Record>, pending: Option<Pending>, json: JsonReader)
    requires idx < |kinds| && ParserInv(kinds, idx, records, pending, json)
    requires kinds[idx].ObserverLine?
    ensures (exists m :: Answers(kinds, m, idx)) <==> pending.Some?
  {
    if pending.Some? {
      Settles(kinds, idx, records, pending.value, json);
      assert Answers(kinds, pending.value.at - 1, idx);
    }
  }

  lemma AllRead(kinds: seq<LineKind>, records: seq<Record>, pending: Option<Pending>, json: JsonReader)
    requires ParserInv(kinds, |kinds|, records, pending, json)
    ensures Accepted(kinds, json) && MarkersOk(kinds) && Flushed(records, pending) == RecordsOf(kinds, json)
  {
    forall i | 0 <= i < |kinds| && kinds[i].Marker? ensures kinds[i].rep.Some? {
      assert LineOk(kinds, i, json);
    }
    if pending.Some? {
      SkipToNonBlank(kinds, pending.value.at, |kinds|, json);
    }
  }

  /** Why the line at `i` cannot be accepted. */
  ghost predicate Explains(kinds: seq<LineKind>, i: nat, json: JsonReader, reason: Reason)
    requires i < |kinds|
  {
    match kinds[i]
    case Marker(_, rep) => rep.None? && reason == BadRepetition
    case ObserverLine(_, payload) =>
      if exists m :: Answers(kinds, m, i) then json(payload).None? && reason == BadJson else reason == NoMarker
    case Unrecognized => reason == UnrecognizedLine
    case _ => false
  }

  datatype Progress = Progress(records: seq<Record>, pending: Option<Pending>)

  /** A delimiter line: settles the pending marker and may start another. */
  method TakeDelimiter(inner: string, state: Progress, n: nat, ghost kinds: seq<LineKind>, json: JsonReader)
    returns (r: Result<Progress, ParseError>)
    requires 1 <= n <= |kinds| && ParserInv(kinds, n - 1, state.records, state.pending, json)
    requires kinds[n - 1] == DelimiterKind(inner)
    ensures r.Ok? ==> ParserInv(kinds, n, r.value.records, r.value.pending, json)
    ensures r.Err? ==> r.error == ParseError(n, BadRepetition) && kinds[n - 1].Marker? && kinds[n - 1].rep.None?
  {
    FlushKeeps(kinds, n - 1, state.records, state.pending, json);
    var records := state.records;
    if state.pending.Some? {
      var p := state.pending.value;
      records := records + [Record(p.tag, p.rep, p.at, None, None)];
    }
    var split := RsplitOnce(inner, " rep");
    if split.None? {
      PassOver(kinds, n - 1, records, json);
      return Ok(Progress(records, None));
    }
    var rep := ParseI64(split.value.1);
    if rep.None? {
      return Err(ParseError(n, BadRepetition));
    }
    MarkerKeeps(kinds, n - 1, records, json);
    return Ok(Progress(records, Some(Pending(split.value.0, rep.value, n))));
  }

  /** An observer line: belongs to the pending marker, which must be there. */
  method TakeObserver(line: string, payload: string, state: Progress, n: nat, ghost kinds: seq<LineKind>, json: JsonReader)
    returns (r: Result<Progress, ParseError>)
    requires 1 <= n <= |kinds| && ParserInv(kinds, n - 1, state.records, state.pending, json)
    requires kinds[n - 1] == ObserverLine(line, payload)
    ensures r.Ok? ==> ParserInv(kinds, n, r.value.records, r.value.pending, json)
    ensures r.Err? ==> r.error.lineNumber == n && Explains(kinds, n - 1, json, r.error.reason)
  {
    WaitedFor(kinds, n - 1, state.records, state.pending, json);
    if state.pending.None? {
      return Err(ParseError(n, NoMarker));
    }
    var p := state.pending.value;
    var observer := json(payload);
    if observer.None? {
      return Err(ParseError(n, BadJson));
    }
    ObserverKeeps(kinds, n - 1, state.records, p, json);
    return Ok(Progress(state.records + [Record(p.tag, p.rep, p.at, Some(line), observer)], None));
  }

  method TakeLine(line: string, state: Progress, n: nat, ghost kinds: seq<LineKind>, json: JsonReader)
    returns (r: Result<Progress, ParseError>)
    requires 1 <= n <= |kinds| && ParserInv(kinds, n - 1, state.records, state.pending, json)
    requires kinds[n - 1] == Classify(line)
    ensures r.Ok? ==> ParserInv(kinds, n, r.value.records, r.value.pending, json)
    ensures r.Err? ==> r.error.lineNumber == n && Explains(kinds, n - 1, json, r.error.reason)
  {
    var inner := Inner(line);
    if inner.Some? {
      r := TakeDelimiter(inner.value, state, n, kinds, json);
      return;
    }
    var payload := StripPrefix(line, "PyTorchObserver ");
    if payload.Some? {
      r := TakeObserver(line, payload.value, state, n, kinds, json);
    } else if !IsBlank(line) {
      r := Err(ParseError(n, UnrecognizedLine));
    } else {
      if state.pending.Some? {
        BlankKeeps(kinds, n - 1, state.records, state.pending.value, json);
      } else {
        PassOver(kinds, n - 1, state.records, json);
      }
      r := Ok(state);
    }
  }

  lemma ExplainedIsRejected(kinds: seq<LineKind>, records: seq<Record>, pending: Option<Pending>, e: ParseError, json: JsonReader)
    requires 1 <= e.lineNumber <= |kinds| && ParserInv(kinds, e.lineNumber - 1, records, pending, json)
    requires Explains(kinds, e.lineNumber - 1, json, e.reason)
    ensures Parses(kinds, json, Err(e))
  {
  }

  lemma NothingReadYet(kinds: seq<LineKind>, json: JsonReader)
    ensures ParserInv(kinds, 0, [], None, json)
  {
  }

  /** Where the parser stands before line `idx`, or why it stopped. */
  ghost predicate ReadUpTo(kinds: seq<LineKind>, idx: nat, r: Result<Progress, ParseError>, json: JsonReader)
    requires idx <= |kinds|
  {
    match r
    case Ok(state) => ParserInv(kinds, idx, state.records, state.pending, json)
    case Err(e) => Parses(kinds, json, Err(e))
  }

  method TakeNext(line: string, state: Progress, n: nat, ghost kinds: seq<LineKind>, json: JsonReader)
    returns (r: Result<Progress, ParseError>)
    requires 1 <= n <= |kinds| && ParserInv(kinds, n - 1, state.records, state.pending, json)
    requires kinds[n - 1] == Classify(line)
    ensures ReadUpTo(kinds, n, r, json)
  {
    r := TakeLine(line, state, n, kinds, json);
    if r.Err? {
      ExplainedIsRejected(kinds, state.records, state.pending, r.error, json);
    }
  }

  method TakeLines(lines: seq<string>, json: JsonReader) returns (r: Result<Progress, ParseError>)
    ensures ReadUpTo(Kinds(lines), |lines|, r, json)
  {
    NothingReadYet(Kinds(lines), json);
    r := Ok(Progress([], None));
    for idx := 0 to |lines|
      invariant r.Ok? && ReadUpTo(Kinds(lines), idx, r, json)
    {
      r := TakeNext(lines[idx], r.value, idx + 1, Kinds(lines), json);
      if r.Err? {
        return;
      }
    }
  }

  /** Accepts exactly the logs whose every line is acceptable, with one record per
      marker; otherwise reports the first line that is not, and why. */
  method ParseLog(text: string, json: JsonReader) returns (r: Result<seq<Record>, ParseError>)
    ensures Parses(Kinds(Lines(text)), json, r)
  {
    var end := TakeLines(Lines(text), json);
    if end.Err? {
      return Err(end.error);
    }
    var records, pending := end.value.records, end.value.pending;
    AllRead(Kinds(Lines(text)), records, pending, json);
    if pending.Some? {
      var p := pending.value;
      records := records + [Record(p.tag, p.rep, p.at, None, None)];
    }
    return Ok(records);
  }

  ghost predicate Parses(kinds: seq<LineKind>, json: JsonReader, r: Result<seq<Record>, ParseError>) {
    match r
    case Ok(records) => Accepted(kinds, json) && MarkersOk(kinds) && records == RecordsOf(kinds, json)
    case Err(e) =>
      && 1 <= e.lineNumber <= |kinds|
      && LinesOk(kinds, e.lineNumber - 1, json) && !LineOk(kinds, e.lineNumber - 1, json)
      && Explains(kinds, e.lineNumber - 1, json, e.reason)
  }

  // ----- What the records say ------------------------------------------------

  predicate Ascending(records: seq<Record>, from: nat) {
    && (forall k :: 0 <= k < |records| ==> records[k].lineNumber > from)
    && (forall k, l :: 0 <= k < l < |records| ==> records[k].lineNumber < records[l].lineNumber)
  }

  /** The records are the markers, in order: line numbers strictly increase, and
      each record is that of the marker on its line. */
  lemma {:induction false} RecordsAreMarkers(kinds: seq<LineKind>, i: nat, json: JsonReader)
    requires i <= |kinds| && MarkersOk(kinds)
    ensures
      var records := RecordsFrom(kinds, i, json);
      && Ascending(records, i)
      && (forall k :: 0 <= k < |records| ==> IsRecordOf(kinds, records[k], json))
      && (forall m :: i <= m < |kinds| && kinds[m].Marker? ==> RecordAt(kinds, m, json) in records)
    decreases |kinds| - i
  {
    if i < |kinds| {
      RecordsAreMarkers(kinds, i + 1, json);
      var rest := RecordsFrom(kinds, i + 1, json);
      var records := RecordsFrom(kinds, i, json);
      if kinds[i].Marker? {
        assert records == [RecordAt(kinds, i, json)] + rest;
        assert IsRecordOf(kinds, RecordAt(kinds, i, json), json);
        assert RecordAt(kinds, i, json) in records;
      }
    }
  }

  ghost predicate IsRecordOf(kinds: seq<LineKind>, record: Record, json: JsonReader)
    requires MarkersOk(kinds)
  {
    && 1 <= record.lineNumber <= |kinds| && kinds[record.lineNumber - 1].Marker?
    && record == RecordAt(kinds, record.lineNumber - 1, json)
  }

  /** Nothing but blank lines stands between a record's marker and its observer
      line, so at most one line is a record's, and it has no nearer marker. */
  lemma AnswersAreNearest(kinds: seq<LineKind>, m: nat, j: nat, l: nat)
    requires Answers(kinds, m, j)
    ensures Answers(kinds, m, l) ==> l == j
    ensures Answers(kinds, l, j) ==> l == m
    ensures forall k :: m < k < j ==> kinds[k].BlankLine?
  {
  }

  /** In an accepted log every observer line belongs to exactly one record, which
      carries that line and its payload; every record without a line has none. */
  lemma ObserversAreOwned(kinds: seq<LineKind>, json: JsonReader, j: nat)
    requires Accepted(kinds, json) && MarkersOk(kinds) && j < |kinds| && kinds[j].ObserverLine?
    ensures exists record :: record in RecordsOf(kinds, json) && Owns(kinds, record, j) && Carries(kinds, record, j, json)
    ensures forall a, b :: a in RecordsOf(kinds, json) && b in RecordsOf(kinds, json) ==>
      (Owns(kinds, a, j) && Owns(kinds, b, j) ==> a == b)
  {
    assert LineOk(kinds, j, json);
    var m: nat :| Answers(kinds, m, j);
    RecordsAreMarkers(kinds, 0, json);
    var record := RecordAt(kinds, m, json);
    assert record in RecordsOf(kinds, json) && Owns(kinds, record, j);
  }

  predicate Carries(kinds: seq<LineKind>, record: Record, j: nat, json: JsonReader)
    requires j < |kinds| && kinds[j].ObserverLine?
  {
    record.rawLine == Some(kinds[j].line) && record.observer == json(kinds[j].json) && record.observer.Some?
  }

  predicate Owns(kinds: seq<LineKind>, record: Record, j: nat) {
    record.lineNumber >= 1 && Answers(kinds, record.lineNumber - 1, j)
  }

  // ----- Printing and reading back -------------------------------------------

  datatype Entry = Entry(tag: string, rep: int, rawLine: Option<string>)

  predicate CanPrint(e: Entry, json: JsonReader) {
    && '\n' !in e.tag && IsI64(e.rep)
    && (e.rawLine.Some? ==> CanPrintLine(e.rawLine.value, json))
  }

  predicate CanPrintLine(line: string, json: JsonReader) {
    IsPlainLine(line) && Classify(line).ObserverLine? && json(Classify(line).json).Some?
  }

  function EntryLines(e: Entry): seq<string> {
    [MarkerLine(e.tag, e.rep)] + if e.rawLine.Some? then [e.rawLine.value] else []
  }

  function PrintedLines(entries: seq<Entry>): seq<string> {
    if entries == [] then [] else EntryLines(entries[0]) + PrintedLines(entries[1..])
  }

  function Printed(entries: seq<Entry>): string {
    Joined(PrintedLines(entries))
  }

  function ExpectedRecord(e: Entry, lineNumber: nat, json: JsonReader): Record {
    var observer :=
      if e.rawLine.Some? && Classify(e.rawLine.value).ObserverLine? then json(Classify(e.rawLine.value).json) else None;
    Record(e.tag, e.rep, lineNumber, e.rawLine, observer)
  }

  /** The records that reading the printed entries should give. */
  function ExpectedRecords(entries: seq<Entry>, lineNumber: nat, json: JsonReader): seq<Record> {
    if entries == [] then []
    else
      [ExpectedRecord(entries[0], lineNumber, json)]
      + ExpectedRecords(entries[1..], lineNumber + |EntryLines(entries[0])|, json)
  }
}
