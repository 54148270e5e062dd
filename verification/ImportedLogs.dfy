/** From the text of a log to the rows that importing it leaves. */
module ImportedLogs {
  import opened Prelude
  import opened LogText
  import opened LogParser
  import opened LogRoundTrip
  import opened ImportPlan
  import opened ImportTheorems

  // ----- The keys of a text -------------------------------------------------

  /** The marker at `a` is one that the manifest does not skip. */
  predicate IsLiveMarker(m: Manifest, kinds: seq<LineKind>, a: nat)
    requires a < |kinds|
  {
    kinds[a].Marker? && kinds[a].tag !in m.skipTags
  }

  function MarkerKey(kinds: seq<LineKind>, a: nat): (string, int)
    requires MarkersOk(kinds) && a < |kinds| && kinds[a].Marker?
  {
    (kinds[a].tag, kinds[a].rep.value - 1)
  }

  predicate IsNewMarker(m: Manifest, kinds: seq<LineKind>, imported: Keys, a: nat)
    requires MarkersOk(kinds) && a < |kinds|
  {
    IsLiveMarker(m, kinds, a) && MarkerKey(kinds, a) !in imported
  }

  /** No marker repeats the `(tag, rep)` of an earlier one that is to be imported. */
  ghost predicate MarkersAreDistinct(m: Manifest, kinds: seq<LineKind>, imported: Keys)
    requires MarkersOk(kinds)
  {
    forall a, b :: 0 <= a < b < |kinds| && IsNewMarker(m, kinds, imported, a) && IsLiveMarker(m, kinds, b) ==>
      MarkerKey(kinds, a) != MarkerKey(kinds, b)
  }

  lemma MarkerHasARecord(kinds: seq<LineKind>, json: JsonReader, a: nat)
    requires MarkersOk(kinds) && a < |kinds| && kinds[a].Marker?
    ensures RecordAt(kinds, a, json) in RecordsOf(kinds, json)
  {
    RecordsAreMarkers(kinds, 0, json);
  }

  /** Where the record of a marker stands among the records. */
  lemma RecordOfMarker(kinds: seq<LineKind>, json: JsonReader, a: nat) returns (i: nat)
    requires MarkersOk(kinds) && a < |kinds| && kinds[a].Marker?
    ensures
      var records := RecordsOf(kinds, json);
      && i < |records| && records[i] == RecordAt(kinds, a, json) && records[i].lineNumber == a + 1
      && records[i].tag == kinds[a].tag && KeyAt(records, i) == MarkerKey(kinds, a)
  {
    MarkerHasARecord(kinds, json, a);
    var records := RecordsOf(kinds, json);
    i :| 0 <= i < |records| && records[i] == RecordAt(kinds, a, json);
  }

  lemma MarkerOfRecord(kinds: seq<LineKind>, json: JsonReader, i: nat) returns (a: nat)
    requires MarkersOk(kinds) && i < |RecordsOf(kinds, json)|
    ensures
      var records := RecordsOf(kinds, json);
      && a < |kinds| && kinds[a].Marker? && a + 1 == records[i].lineNumber
      && records[i].tag == kinds[a].tag && KeyAt(records, i) == MarkerKey(kinds, a)
  {
    RecordsAreMarkers(kinds, 0, json);
    assert IsRecordOf(kinds, RecordsOf(kinds, json)[i], json);
    a := RecordsOf(kinds, json)[i].lineNumber - 1;
  }

  lemma LaterRecord(kinds: seq<LineKind>, json: JsonReader, i: nat, j: nat)
    requires MarkersOk(kinds)
    requires
      var records := RecordsOf(kinds, json);
      i < |records| && j < |records| && records[i].lineNumber < records[j].lineNumber
    ensures i < j
  {
    RecordsAreMarkers(kinds, 0, json);
  }

  /** The condition on the records of a log is one on the markers of its text. */
  lemma KeysAreTheMarkers(m: Manifest, kinds: seq<LineKind>, json: JsonReader, imported: Keys)
    requires MarkersOk(kinds)
    ensures KeysAreDistinct(m, RecordsOf(kinds, json), imported) <==> MarkersAreDistinct(m, kinds, imported)
  {
    var records := RecordsOf(kinds, json);
    if MarkersAreDistinct(m, kinds, imported) {
      forall i, j | 0 <= i < j < |records| && IsNew(m, records, imported, i) && IsLive(m, records, j)
        ensures KeyAt(records, i) != KeyAt(records, j)
      {
        RecordsAreMarkers(kinds, 0, json);
        var a := MarkerOfRecord(kinds, json, i);
        var b := MarkerOfRecord(kinds, json, j);
      }
    }
    if KeysAreDistinct(m, records, imported) {
      forall a, b | 0 <= a < b < |kinds| && IsNewMarker(m, kinds, imported, a) && IsLiveMarker(m, kinds, b)
        ensures MarkerKey(kinds, a) != MarkerKey(kinds, b)
      {
        var i := RecordOfMarker(kinds, json, a);
        var j := RecordOfMarker(kinds, json, b);
        LaterRecord(kinds, json, i, j);
      }
    }
  }

  // ----- What importing a text leaves ---------------------------------------

  /** Of a log that is read and imported to its end: from a table with at most one
      row per (log, tag, repetition), one is left with at most one per key, and the
      import may be killed before any record and run again without a trace, if and
      only if no marker of the text repeats one that was to be imported. */
  lemma LogImportsOnceIff(text: string, json: JsonReader, records: seq<Record>, v: View, m: Manifest)
    requires Parses(Kinds(Lines(text)), json, Ok(records))
    requires OneRowPerKey(v.rows) && Import(v, m, records).error.None?
    ensures OneRowPerKey(Import(v, m, records).view.rows) <==> MarkersAreDistinct(m, Kinds(Lines(text)), Start(v, m))
    ensures (forall n :: 0 <= n <= |records| ==> Resumed(v, m, records, n).view == Import(v, m, records).view)
      <==> MarkersAreDistinct(m, Kinds(Lines(text)), Start(v, m))
  {
    KeysAreTheMarkers(m, Kinds(Lines(text)), json, Start(v, m));
    OneRowPerKeyIff(v, m, records);
    ResumableEverywhereIff(v, m, records);
  }

  /** A manifest with one tag and one model. */
  const SMALL_MANIFEST :=
    Manifest("log", {}, map["t" := ModelSpec("m.pte", "m")], [], None, map["m.pte" := ModelFile("m", 1)], ms => true)

  /** Two markers of one repetition, each with its observer line. */
  function RepeatedLog(line: string): string {
    Printed([Entry("t", 1, Some(line)), Entry("t", 1, Some(line))])
  }

  /** The record of such a marker on line `n`. */
  function MeasuredAt(line: string, json: JsonReader, n: nat): Record {
    ExpectedRecord(Entry("t", 1, Some(line)), n, json)
  }

  lemma RepeatedLogParses(line: string, json: JsonReader)
    requires CanPrintLine(line, json)
    ensures Parses(Kinds(Lines(RepeatedLog(line))), json, Ok([MeasuredAt(line, json, 1), MeasuredAt(line, json, 3)]))
  {
    var e := Entry("t", 1, Some(line));
    PrintedLogParses([e, e], json);
    TwoExpected(e, json);
  }

  lemma TwoExpected(e: Entry, json: JsonReader)
    requires e.rawLine.Some?
    ensures ExpectedRecords([e, e], 1, json) == [ExpectedRecord(e, 1, json), ExpectedRecord(e, 3, json)]
  {
    assert [e, e][1..] == [e] && [e][1..] == [];
    assert ExpectedRecords([e], 3, json) == [ExpectedRecord(e, 3, json)] + ExpectedRecords([], 5, json);
  }

  /** Measurements that the table accepts. */
  predicate CanBeStored(o: Observer) {
    && o.promptTokens >= 0 && o.generatedTokens >= 0 && o.prefillTokenPerSec >= 0.0
    && (o.decodeTokenPerSec.Some? ==> o.decodeTokenPerSec.value >= 0.0)
  }

  lemma BothAreInserted(line: string, json: JsonReader)
    requires CanPrintLine(line, json) && CanBeStored(json(Classify(line).json).value)
    ensures
      var p := Import(View({}, []), SMALL_MANIFEST, [MeasuredAt(line, json, 1), MeasuredAt(line, json, 3)]);
      p.error.None? && p.inserted == 2 && |p.view.rows| == 2 && SameKey(p.view.rows[0], p.view.rows[1])
  {
    var m, v := SMALL_MANIFEST, View({}, []);
    var records := [MeasuredAt(line, json, 1), MeasuredAt(line, json, 3)];
    var imported := Start(v, m);
    assert RunTo(v, m, records, imported, 0) == ImportState(v, None, 0, 0, 0);
    var one := RunTo(v, m, records, imported, 1);
    assert one.error.None? && one.inserted == 1 && |one.view.rows| == 1;
    var two := RunTo(v, m, records, imported, 2);
    assert two.error.None? && two.inserted == 2 && |two.view.rows| == 2;
  }

  /** A log that repeats a pair is accepted, with records for lines 1 and 3.  The
      second is not recognized as present, because what is present was read before
      the first, so both are inserted; and importing the log again keeps both. */
  lemma RepeatedPairIsImportedTwice(line: string, json: JsonReader)
    requires CanPrintLine(line, json) && CanBeStored(json(Classify(line).json).value)
    ensures
      var records := [MeasuredAt(line, json, 1), MeasuredAt(line, json, 3)];
      var p := Import(View({}, []), SMALL_MANIFEST, records);
      && Parses(Kinds(Lines(RepeatedLog(line))), json, Ok(records))
      && p.error.None? && p.inserted == 2 && |p.view.rows| == 2 && SameKey(p.view.rows[0], p.view.rows[1])
      && Import(p.view, SMALL_MANIFEST, records).view == p.view
  {
    RepeatedLogParses(line, json);
    BothAreInserted(line, json);
    ImportIsIdempotent(View({}, []), SMALL_MANIFEST, [MeasuredAt(line, json, 1), MeasuredAt(line, json, 3)]);
  }

  /** A payload with the required fields. */
  const PAYLOAD :=
    "{\"prefill_token_per_sec\":1," + "\"prompt_tokens\":1," + "\"generated_tokens\":0,"
    + "\"model_load_start_ms\":0," + "\"inference_end_ms\":1}"

  lemma PayloadIsPlain()
    ensures '\n' !in PAYLOAD && PAYLOAD != "" && PAYLOAD[|PAYLOAD| - 1] == '}'
  {
  }

  lemma ObserverLineIs(payload: string)
    requires '\n' !in payload && payload != "" && payload[|payload| - 1] == '}'
    ensures
      var line := "PyTorchObserver " + payload;
      IsPlainLine(line) && Classify(line) == ObserverLine(line, payload)
  {
    var line := "PyTorchObserver " + payload;
    assert line[0] == 'P' && "=== "[0] == '=';
    assert line[|"PyTorchObserver "|..] == payload;
  }

  /** There are such lines. */
  lemma ObserverLinesExist() returns (line: string, json: JsonReader)
    ensures CanPrintLine(line, json) && CanBeStored(json(Classify(line).json).value)
  {
    PayloadIsPlain();
    ObserverLineIs(PAYLOAD);
    line := "PyTorchObserver " + PAYLOAD;
    json := text => if text == PAYLOAD then Some(Observer(1.0, None, 1, 0, 0, 1)) else None;
  }
}
