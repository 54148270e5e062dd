/** Imported rows in the grouped results: which of them become samples. */
module ImportedRuns {
  import opened Prelude
  import opened Sorting
  import opened Statistics
  import opened Runs
  import opened ConfigKeys
  import opened Results
  import opened RowColumns
  import opened LogText
  import opened LogParser
  import opened LogRoundTrip
  import opened ImportPlan
  import opened ImportedLogs

  /** The imported row as a run.  `rest` has the columns that do not come from the
      record: the generated id, the model's asset, and what the manifest says of
      host and commit. */
  function AsRun(c: Content, rest: Run): Run {
    rest.(startedAt := c.startedAtMs * 1_000_000, inputTokenCount := c.inputTokens, prefill := c.prefill,
          decode := c.decode, exitStatus := c.exitStatus, correctness := Domain.CorrectnessResult.NotChecked)
  }

  predicate Selected(f: ResultsFilter, r: Run) {
    Selects(f.AsRunListFilter(), r)
  }

  /** A configuration's runs as the results see them. */
  function GroupIn(table: seq<Run>, f: ResultsFilter, key: ConfigKey): seq<Run> {
    Group(Matching(table, f), key)
  }

  /** The sample a run adds to a metric, if any. */
  function SampleOf(f: ResultsFilter, r: Run, metric: Run -> Option<real>): seq<real> {
    if Selected(f, r) && Succeeded(r) && metric(r).Some? then [metric(r).value] else []
  }

  // ----- Adding one run -----------------------------------------------------

  lemma SamplesPermute(a: seq<Run>, b: seq<Run>, metric: Run -> Option<real>)
    requires multiset(a) == multiset(b)
    ensures multiset(Samples(a, metric)) == multiset(Samples(b, metric))
  {
    forall x: real ensures multiset(Samples(a, metric))[x] == multiset(Samples(b, metric))[x] {
      SamplesCounted(a, metric, x);
      SamplesCounted(b, metric, x);
      FilterPermutes(a, b, Records(metric, x));
    }
  }

  /** Wherever a new run falls in the stream, its group is the old one and it. */
  lemma GroupGains(table: seq<Run>, f: ResultsFilter, r: Run)
    ensures multiset(GroupIn(table + [r], f, KeyOf(r))) ==
      multiset(GroupIn(table, f, KeyOf(r)) + if Selected(f, r) then [r] else [])
  {
    var selects := (x: Run) => Selects(f.AsRunListFilter(), x);
    var isKey := (x: Run) => KeyOf(x) == KeyOf(r);
    var before, after := Filter(table, selects), Filter(table + [r], selects);
    FilterAgrees(table, selects, x => Selects(f.AsRunListFilter(), x));
    FilterAgrees(table + [r], selects, x => Selects(f.AsRunListFilter(), x));
    FilterAppend(table, r, selects);
    SortPermutes(OldestFirst, before);
    SortPermutes(OldestFirst, after);
    var old_, new_ := Sort(OldestFirst, before), Sort(OldestFirst, after);
    FilterAgrees(old_, isKey, x => KeyOf(x) == KeyOf(r));
    FilterAgrees(new_, isKey, x => KeyOf(x) == KeyOf(r));
    var added := if Selected(f, r) then [r] else [];
    assert multiset(new_) == multiset(old_ + added);
    FilterPermutes(new_, old_ + added, isKey);
    if Selected(f, r) {
      FilterAppend(old_, r, isKey);
    } else {
      assert old_ + added == old_ && GroupIn(table, f, KeyOf(r)) + added == GroupIn(table, f, KeyOf(r));
    }
  }

  /** A new run adds its own sample to its group's, and no other. */
  lemma SamplesGain(table: seq<Run>, f: ResultsFilter, r: Run, metric: Run -> Option<real>)
    ensures multiset(Samples(GroupIn(table + [r], f, KeyOf(r)), metric)) ==
      multiset(Samples(GroupIn(table, f, KeyOf(r)), metric) + SampleOf(f, r, metric))
  {
    var g := GroupIn(table, f, KeyOf(r));
    var added := if Selected(f, r) then [r] else [];
    GroupGains(table, f, r);
    SamplesPermute(GroupIn(table + [r], f, KeyOf(r)), g + added, metric);
    if Selected(f, r) {
      SamplesSnoc(g, r, metric);
    } else {
      assert g + added == g && Samples(g, metric) + SampleOf(f, r, metric) == Samples(g, metric);
    }
  }

  /** A metric's statistics change if and only if the run is a sample of it. */
  lemma StatsChangeIff(table: seq<Run>, f: ResultsFilter, r: Run, metric: Run -> Option<real>)
    ensures
      var before, after := Samples(GroupIn(table, f, KeyOf(r)), metric), Samples(GroupIn(table + [r], f, KeyOf(r)), metric);
      StatsOf(after) == StatsOf(before) <==> SampleOf(f, r, metric) == []
  {
    var before, after := Samples(GroupIn(table, f, KeyOf(r)), metric), Samples(GroupIn(table + [r], f, KeyOf(r)), metric);
    SamplesGain(table, f, r, metric);
    if SampleOf(f, r, metric) == [] {
      assert before + SampleOf(f, r, metric) == before;
      StatsForgetOrder(after, before);
    } else {
      assert |multiset(after)| == |after| && |multiset(before + SampleOf(f, r, metric))| == |before| + 1;
      StatsSummarise(after);
      StatsSummarise(before);
    }
  }

  // ----- Repetitions that were not measured ---------------------------------

  lemma {:induction false} FoundFailureIsListed(failures: seq<FailureSpec>, tag: string, rep: int)
    ensures FindFailure(failures, tag, rep).Some? ==>
      (FindFailure(failures, tag, rep).value in failures
       && FindFailure(failures, tag, rep).value.tag == tag && FindFailure(failures, tag, rep).value.rep == rep)
    ensures FindFailure(failures, tag, rep).None? ==> forall f :: f in failures ==> f.tag != tag || f.rep != rep
  {
    if failures != [] {
      FoundFailureIsListed(failures[1..], tag, rep);
    }
  }

  /** The manifest's entry for a repetition without output. */
  function ListedFailure(m: Manifest, record: Record): Option<FailureSpec> {
    FindFailure(m.failures, record.tag, record.rep)
  }

  lemma UnmeasuredContent(m: Manifest, records: seq<Record>, i: nat, spec: ModelSpec)
    requires i < |records| && records[i].observer.None? && ContentAt(m, records, i, spec).Ok?
    ensures
      var c := ContentAt(m, records, i, spec).value;
      && ListedFailure(m, records[i]).Some?
      && ListedFailure(m, records[i]).value.exitStatus == Some(c.exitStatus)
      && c.prefill == 0.0 && c.decode.None?
  {
  }

  /** In whatever table it ends up, and under whatever filter: the run of a
      repetition that produced nothing leaves the statistics of its configuration
      as they were, if and only if the filter leaves it out or the manifest does
      not call the failure a success.  Otherwise it is one more prefill sample, of
      zero tokens per second. */
  lemma UnmeasuredStaysOutIff(m: Manifest, records: seq<Record>, i: nat, spec: ModelSpec,
                              rest: Run, table: seq<Run>, f: ResultsFilter)
    requires i < |records| && records[i].observer.None? && ContentAt(m, records, i, spec).Ok?
    ensures ListedFailure(m, records[i]).Some? && ListedFailure(m, records[i]).value in m.failures
    ensures
      var r := AsRun(ContentAt(m, records, i, spec).value, rest);
      var before, after := RowFor(KeyOf(r), Matching(table, f)), RowFor(KeyOf(r), Matching(table + [r], f));
      var counts := Selected(f, r) && ListedFailure(m, records[i]).value.exitStatus == Some(Domain.ExitStatus.Succeeded);
      && (after.prefill == before.prefill && after.decode == before.decode <==> !counts)
      && multiset(Samples(GroupIn(table + [r], f, KeyOf(r)), PrefillOf)) ==
           multiset(Samples(GroupIn(table, f, KeyOf(r)), PrefillOf) + if counts then [0.0] else [])
      && after.decode == before.decode
  {
    var r := AsRun(ContentAt(m, records, i, spec).value, rest);
    FoundFailureIsListed(m.failures, records[i].tag, records[i].rep);
    UnmeasuredContent(m, records, i, spec);
    SamplesGain(table, f, r, PrefillOf);
    StatsChangeIff(table, f, r, PrefillOf);
    StatsChangeIff(table, f, r, DecodeOf);
  }

  /** A log with one marker and nothing behind it, and a manifest that lists that
      repetition as killed, and as a success. */
  const SILENT_LOG := Printed([Entry("t", 1, None)])

  const MISTAKEN_MANIFEST :=
    SMALL_MANIFEST.(failures := [FailureSpec("t", 1, Some(Domain.ExitStatus.Succeeded), Some(0), "killed")])

  const SILENT_RECORD := Record("t", 1, 1, None, None)

  lemma SilentLogParses(json: JsonReader)
    ensures Parses(Kinds(Lines(SILENT_LOG)), json, Ok([SILENT_RECORD]))
  {
    var entries := [Entry("t", 1, None)];
    assert CanPrintAll(entries, json);
    PrintedLogParses(entries, json);
    assert entries[1..] == [];
    assert ExpectedRecords(entries, 1, json) == [SILENT_RECORD];
  }

  /** Its import completes, with one row that carries no measurement. */
  lemma MistakenImport()
    ensures
      var p := Import(View({}, []), MISTAKEN_MANIFEST, [SILENT_RECORD]);
      && p.error.None?
      && ContentAt(MISTAKEN_MANIFEST, [SILENT_RECORD], 0, ModelSpec("m.pte", "m")).Ok?
      && p.view.rows == [ContentAt(MISTAKEN_MANIFEST, [SILENT_RECORD], 0, ModelSpec("m.pte", "m")).value]
      && ListedFailure(MISTAKEN_MANIFEST, SILENT_RECORD) == Some(MISTAKEN_MANIFEST.failures[0])
  {
    var m, records, v := MISTAKEN_MANIFEST, [SILENT_RECORD], View({}, []);
    assert RunTo(v, m, records, Start(v, m), 0) == ImportState(v, None, 0, 0, 0);
    assert RunTo(v, m, records, Start(v, m), 1).error.None?;
  }

  /** Its configuration then reports a prefill rate that nobody measured. */
  lemma MistakenSuccessIsASample(json: JsonReader, rest: Run, f: ResultsFilter)
    ensures Parses(Kinds(Lines(SILENT_LOG)), json, Ok([SILENT_RECORD]))
    ensures
      var p := Import(View({}, []), MISTAKEN_MANIFEST, [SILENT_RECORD]);
      && p.error.None? && |p.view.rows| == 1
      && var r := AsRun(p.view.rows[0], rest);
         Selected(f, r) ==> RowFor(KeyOf(r), Matching([r], f)).prefill == Some(MetricStats(0.0, 0.0, 0.0, 1))
  {
    SilentLogParses(json);
    MistakenImport();
    var r := AsRun(Import(View({}, []), MISTAKEN_MANIFEST, [SILENT_RECORD]).view.rows[0], rest);
    if Selected(f, r) {
      OnlySample(r, f);
    }
  }

  lemma OnlySample(r: Run, f: ResultsFilter)
    requires Selected(f, r) && Succeeded(r)
    ensures RowFor(KeyOf(r), Matching([r], f)).prefill == Some(MetricStats(r.prefill, r.prefill, r.prefill, 1))
  {
    SamplesGain([], f, r, PrefillOf);
    assert [] + [r] == [r];
    assert Samples(GroupIn([], f, KeyOf(r)), PrefillOf) + [r.prefill] == [r.prefill];
    OneSample(Samples(GroupIn([r], f, KeyOf(r)), PrefillOf), r.prefill);
  }

  lemma OneSample(samples: seq<real>, x: real)
    requires multiset(samples) == multiset([x])
    ensures StatsOf(samples) == Some(MetricStats(x, x, x, 1))
  {
    StatsForgetOrder(samples, [x]);
    assert Sort(AtMost, [x]) == [x];
  }

  // ----- Repetitions that were measured -------------------------------------

  /** The run of an observed repetition that a filter selects is one more prefill
      sample, of the observed rate; its decode rate is a sample if and only if
      something was generated and the rate was reported. */
  lemma ObservedRunsAreSamples(m: Manifest, records: seq<Record>, i: nat, spec: ModelSpec,
                               rest: Run, table: seq<Run>, f: ResultsFilter)
    requires i < |records| && records[i].observer.Some? && ContentAt(m, records, i, spec).Ok?
    requires Selected(f, AsRun(ContentAt(m, records, i, spec).value, rest))
    ensures
      var o := records[i].observer.value;
      var r := AsRun(ContentAt(m, records, i, spec).value, rest);
      var before, after := GroupIn(table, f, KeyOf(r)), GroupIn(table + [r], f, KeyOf(r));
      && multiset(Samples(after, PrefillOf)) == multiset(Samples(before, PrefillOf) + [o.prefillTokenPerSec])
      && multiset(Samples(after, DecodeOf)) == multiset(Samples(before, DecodeOf) +
           if o.generatedTokens > 0 && o.decodeTokenPerSec.Some? then [o.decodeTokenPerSec.value] else [])
  {
    var r := AsRun(ContentAt(m, records, i, spec).value, rest);
    assert ContentAt(m, records, i, spec) == ObservedContent(m, records[i], records[i].observer.value, spec);
    SamplesGain(table, f, r, PrefillOf);
    SamplesGain(table, f, r, DecodeOf);
  }
}
