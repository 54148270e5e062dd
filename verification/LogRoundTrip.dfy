/** Parsing a printed log gives back the records that were printed. */
module LogRoundTrip {
  import opened Prelude
  import opened Decimal
  import opened LogText
  import opened LogParser

  ghost predicate CanPrintAll(entries: seq<Entry>, json: JsonReader) {
    forall i :: 0 <= i < |entries| ==> CanPrint(entries[i], json)
  }

  /** A line as the printer writes it. */
  ghost predicate IsPrinted(line: string, json: JsonReader) {
    IsPlainLine(line) && !Classify(line).BlankLine?
    && (Classify(line).Marker? ==> Classify(line).rep.Some?)
  }

  lemma EntryIsPrinted(e: Entry, json: JsonReader)
    requires CanPrint(e, json)
    ensures forall i :: 0 <= i < |EntryLines(e)| ==> IsPrinted(EntryLines(e)[i], json)
  {
    MarkerLineIsMarker(e.tag, e.rep);
    MarkerLineIsPlain(e.tag, e.rep);
  }

  lemma {:induction false} AllPrinted(entries: seq<Entry>, json: JsonReader)
    requires CanPrintAll(entries, json)
    ensures forall i :: 0 <= i < |PrintedLines(entries)| ==> IsPrinted(PrintedLines(entries)[i], json)
  {
    if entries != [] {
      EntryIsPrinted(entries[0], json);
      AllPrinted(entries[1..], json);
    }
  }

  /** The record of an entry whose marker stands at `i`. */
  lemma EntryRecord(kinds: seq<LineKind>, i: nat, e: Entry, json: JsonReader)
    requires CanPrint(e, json)
    requires i + |EntryLines(e)| <= |kinds| && kinds[i] == Marker(e.tag, Some(e.rep))
    requires e.rawLine.Some? ==> kinds[i + 1] == Classify(e.rawLine.value)
    requires e.rawLine.None? && i + 1 < |kinds| ==> kinds[i + 1].Marker?
    ensures RecordAt(kinds, i, json) == ExpectedRecord(e, i + 1, json)
    ensures e.rawLine.Some? ==> Answers(kinds, i, i + 1)
  {
    assert NextNonBlank(kinds, i + 1) == i + 1;
    if e.rawLine.Some? {
      ObserverKeepsLine(e.rawLine.value);
    }
  }

  lemma ObserverKeepsLine(line: string)
    ensures Classify(line).ObserverLine? ==> Classify(line).line == line
  {
  }

  lemma FirstIsMarker(entries: seq<Entry>)
    requires entries != [] && IsI64(entries[0].rep)
    ensures PrintedLines(entries) != []
    ensures Classify(PrintedLines(entries)[0]) == Marker(entries[0].tag, Some(entries[0].rep))
  {
    MarkerLineIsMarker(entries[0].tag, entries[0].rep);
  }

  lemma KindsFrom(kinds: seq<LineKind>, i: nat, lines: seq<string>, n: nat)
    requires i <= |kinds| && kinds[i..] == Kinds(lines) && n <= |lines|
    ensures |kinds| == i + |lines|
    ensures kinds[i + n..] == Kinds(lines[n..])
    ensures n < |lines| ==> kinds[i + n] == Classify(lines[n])
  {
    assert |kinds[i..]| == |Kinds(lines)|;
    assert kinds[i + n..] == kinds[i..][n..];
    assert kinds[i..][n..] == Kinds(lines[n..]);
  }

  lemma EntryLinesFirst(entries: seq<Entry>)
    requires entries != []
    ensures
      var lines := PrintedLines(entries);
      var n := |EntryLines(entries[0])|;
      && n <= |lines| && lines[n..] == PrintedLines(entries[1..])
      && (entries[0].rawLine.Some? ==> lines[1] == entries[0].rawLine.value)
  {
    assert PrintedLines(entries) == EntryLines(entries[0]) + PrintedLines(entries[1..]);
  }

  /** What stands at an entry's place among the lines, and behind it. */
  lemma {:induction false} EntryPlace(kinds: seq<LineKind>, i: nat, entries: seq<Entry>)
    requires i <= |kinds| && kinds[i..] == Kinds(PrintedLines(entries)) && entries != []
    requires IsI64(entries[0].rep)
    ensures
      var e := entries[0];
      var next := i + |EntryLines(e)|;
      && next <= |kinds| && kinds[i] == Marker(e.tag, Some(e.rep))
      && (e.rawLine.Some? ==> kinds[i + 1] == Classify(e.rawLine.value))
      && kinds[next..] == Kinds(PrintedLines(entries[1..]))
  {
    var lines := PrintedLines(entries);
    EntryLinesFirst(entries);
    FirstIsMarker(entries);
    KindsFrom(kinds, i, lines, 0);
    KindsFrom(kinds, i, lines, |EntryLines(entries[0])|);
    if entries[0].rawLine.Some? {
      KindsFrom(kinds, i, lines, 1);
    }
  }

  lemma MarkerParses(kinds: seq<LineKind>, i: nat, json: JsonReader)
    requires MarkersOk(kinds) && i < |kinds| && kinds[i].Marker?
    ensures RecordsFrom(kinds, i, json) == [RecordAt(kinds, i, json)] + RecordsFrom(kinds, i + 1, json)
    ensures LineOk(kinds, i, json)
  {
  }

  lemma ObserverParses(kinds: seq<LineKind>, i: nat, json: JsonReader)
    requires MarkersOk(kinds) && i + 1 < |kinds| && Answers(kinds, i, i + 1) && json(kinds[i + 1].json).Some?
    ensures RecordsFrom(kinds, i + 1, json) == RecordsFrom(kinds, i + 2, json)
    ensures LineOk(kinds, i + 1, json)
  {
  }

  /** An entry's lines, with whatever may follow them, stand at `i`. */
  ghost predicate Stands(kinds: seq<LineKind>, i: nat, e: Entry, json: JsonReader) {
    && CanPrint(e, json)
    && i + |EntryLines(e)| <= |kinds| && kinds[i] == Marker(e.tag, Some(e.rep))
    && (e.rawLine.Some? ==> kinds[i + 1] == Classify(e.rawLine.value))
    && (e.rawLine.None? && i + 1 < |kinds| ==> kinds[i + 1].Marker?)
  }

  lemma EntryLinesParse(kinds: seq<LineKind>, i: nat, e: Entry, json: JsonReader)
    requires MarkersOk(kinds) && Stands(kinds, i, e, json)
    ensures forall k :: i <= k < i + |EntryLines(e)| ==> LineOk(kinds, k, json)
  {
    assert LineOk(kinds, i, json);
    if e.rawLine.Some? {
      EntryRecord(kinds, i, e, json);
      ObserverParses(kinds, i, json);
    }
  }

  /** An entry's record, given what follows its lines. */
  lemma EntryParses(kinds: seq<LineKind>, i: nat, e: Entry, json: JsonReader)
    requires MarkersOk(kinds) && Stands(kinds, i, e, json)
    ensures RecordsFrom(kinds, i, json) ==
      [ExpectedRecord(e, i + 1, json)] + RecordsFrom(kinds, i + |EntryLines(e)|, json)
  {
    EntryRecord(kinds, i, e, json);
    MarkerParses(kinds, i, json);
    if e.rawLine.Some? {
      ObserverParses(kinds, i, json);
    }
  }

  /** From any entry on. */
  lemma {:induction false} SuffixParses(kinds: seq<LineKind>, i: nat, entries: seq<Entry>, json: JsonReader)
    requires i <= |kinds| && kinds[i..] == Kinds(PrintedLines(entries))
    requires CanPrintAll(entries, json) && MarkersOk(kinds)
    ensures RecordsFrom(kinds, i, json) == ExpectedRecords(entries, i + 1, json)
    ensures forall k :: i <= k < |kinds| ==> LineOk(kinds, k, json)
    decreases |entries|
  {
    if entries != [] {
      var e, rest := entries[0], entries[1..];
      var next := i + |EntryLines(e)|;
      assert CanPrint(e, json);
      EntryPlace(kinds, i, entries);
      if rest != [] {
        assert CanPrint(rest[0], json);
        EntryPlace(kinds, next, rest);
      }
      EntryParses(kinds, i, e, json);
      EntryLinesParse(kinds, i, e, json);
      SuffixParses(kinds, next, rest, json);
    }
  }

  lemma PrintedKindsOk(entries: seq<Entry>, json: JsonReader)
    requires CanPrintAll(entries, json)
    ensures Lines(Printed(entries)) == PrintedLines(entries)
    ensures MarkersOk(Kinds(PrintedLines(entries)))
  {
    var lines := PrintedLines(entries);
    AllPrinted(entries, json);
    forall i | 0 <= i < |lines| ensures IsPlainLine(lines[i]) {
      assert IsPrinted(lines[i], json);
    }
    LinesOfJoined(lines);
    forall i | 0 <= i < |lines| && Kinds(lines)[i].Marker? ensures Kinds(lines)[i].rep.Some? {
      assert IsPrinted(lines[i], json);
    }
  }

  lemma WholeIsSuffix<T>(s: seq<T>)
    ensures s[0..] == s
  {
  }

  lemma AllLinesOk(kinds: seq<LineKind>, json: JsonReader)
    requires forall k :: 0 <= k < |kinds| ==> LineOk(kinds, k, json)
    ensures Accepted(kinds, json)
  {
  }

  lemma WholeParses(kinds: seq<LineKind>, entries: seq<Entry>, json: JsonReader)
    requires kinds == Kinds(PrintedLines(entries)) && CanPrintAll(entries, json) && MarkersOk(kinds)
    ensures RecordsFrom(kinds, 0, json) == ExpectedRecords(entries, 1, json)
    ensures Accepted(kinds, json)
  {
    WholeIsSuffix(kinds);
    SuffixParses(kinds, 0, entries, json);
    AllLinesOk(kinds, json);
  }

  /** A printed log is accepted, with the records that were printed. */
  lemma PrintedLogParses(entries: seq<Entry>, json: JsonReader)
    requires CanPrintAll(entries, json)
    ensures Parses(Kinds(Lines(Printed(entries))), json, Ok(ExpectedRecords(entries, 1, json)))
  {
    PrintedKindsOk(entries, json);
    WholeParses(Kinds(PrintedLines(entries)), entries, json);
  }

  /** Whatever the tags contain short of a newline, " rep" included, reading a
      printed log gives exactly the printed records. */
  lemma PrintedLogsReadBack(entries: seq<Entry>, json: JsonReader, r: Result<seq<Record>, ParseError>)
    requires CanPrintAll(entries, json)
    requires Parses(Kinds(Lines(Printed(entries))), json, r)
    ensures r == Ok(ExpectedRecords(entries, 1, json))
  {
    PrintedLogParses(entries, json);
  }
}
