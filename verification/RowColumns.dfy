/** What each column of a results row is, said of the configuration's runs, and
    what those runs are, said of the table. */
module RowColumns {
  import opened Prelude
  import opened Sorting
  import opened Statistics
  import opened Runs
  import opened ConfigKeys
  import opened Results
  import opened ResultTheorems

  // ----- A configuration's runs ---------------------------------------------

  /** The run has every column value that the filter sets. */
  predicate HasColumns(f: ResultsFilter, r: Run) {
    && (f.platform.Some? ==> r.platform == f.platform.value)
    && (f.deviceClass.Some? ==> r.deviceClass == f.deviceClass.value)
    && (f.deviceSerial.Some? ==> r.deviceSerial == f.deviceSerial.value)
    && (f.modelAssetId.Some? ==> r.modelAssetId == f.modelAssetId.value)
    && (f.gitCommitSha.Some? ==> r.gitCommitSha == f.gitCommitSha.value)
    && (f.gitBranch.Some? ==> r.gitBranch == f.gitBranch)
    && (f.gitDirty.Some? ==> r.gitDirty == f.gitDirty.value)
    && (f.sumdDriverVersion.Some? ==> r.host.sumdDriverVersion == f.sumdDriverVersion)
    && (f.bspVersion.Some? ==> r.host.bspVersion == f.bspVersion)
    && (f.hostAccelerator.Some? ==> r.host.hostAccelerator == f.hostAccelerator)
    && (f.promptSha256.Some? ==> r.promptSha256 == f.promptSha256.value)
  }

  /** By start, and by id among equal starts. */
  ghost predicate IsOldestFirst(rows: seq<Run>) {
    forall i, j :: 0 <= i < j < |rows| ==>
      !Below(RunCursor(rows[j].startedAt, rows[j].id), RunCursor(rows[i].startedAt, rows[i].id))
  }

  lemma SortedIsOldestFirst(rows: seq<Run>)
    requires Sorted(OldestFirst, rows)
    ensures IsOldestFirst(rows)
  {
    forall i, j | 0 <= i < j < |rows| ensures !Below(CursorOf(rows[j]), CursorOf(rows[i])) {
      assert OldestFirst(rows[i], rows[j]);
      ImageOrder(CursorOf(rows[j]), CursorOf(rows[i]));
      KeyTotal(CursorImage(CursorOf(rows[j])), CursorImage(CursorOf(rows[i])));
    }
  }

  lemma MatchesIffColumns(f: ResultsFilter, r: Run)
    ensures Selects(f.AsRunListFilter(), r) <==> HasColumns(f, r)
  {
    SelectsMeans(f.AsRunListFilter(), r);
  }

  /** A configuration's runs are those of the table with its key and the filter's
      columns, each as often as it is there, oldest first. */
  lemma GroupMeans(table: seq<Run>, f: ResultsFilter, key: ConfigKey)
    ensures
      var g := Group(Matching(table, f), key);
      && IsOldestFirst(g)
      && forall r :: multiset(g)[r] == if HasColumns(f, r) && KeyOf(r) == key then multiset(table)[r] else 0
  {
    var matching := Filter(table, r => Selects(f.AsRunListFilter(), r));
    GroupIsSorted(table, f, key);
    SortedIsOldestFirst(Group(Matching(table, f), key));
    SortPermutes(OldestFirst, matching);
    forall r
      ensures multiset(Group(Matching(table, f), key))[r]
        == if HasColumns(f, r) && KeyOf(r) == key then multiset(table)[r] else 0
    {
      FilterCounts(table, r => Selects(f.AsRunListFilter(), r), r);
      FilterCounts(Matching(table, f), r => KeyOf(r) == key, r);
      MatchesIffColumns(f, r);
    }
  }

  // ----- Metadata -----------------------------------------------------------

  /** `value` is the column at the first run that sets it; none if none does. */
  ghost predicate IsFirstSet<T>(value: Option<T>, g: seq<Run>, column: Run -> Option<T>) {
    if value.Some? then
      exists i :: 0 <= i < |g| && column(g[i]) == value && forall j :: 0 <= j < i ==> column(g[j]).None?
    else
      forall i :: 0 <= i < |g| ==> column(g[i]).None?
  }

  lemma FirstSetMeans<T>(g: seq<Run>, column: Run -> Option<T>, same: Run -> Option<T>)
    requires forall r :: column(r) == same(r)
    ensures IsFirstSet(FirstSet(g, column), g, same)
  {
    FirstSetIsFirst(g, column);
    if FirstSet(g, column).Some? {
      var i :| 0 <= i < |g| && column(g[i]) == FirstSet(g, column) && AllUnset(g[..i], column);
      assert forall j :: 0 <= j < i ==> g[..i][j] == g[j] && column(g[..i][j]).None?;
    }
  }

  lemma PageRowsAreGroupRows(table: seq<Run>, f: ResultsFilter, maxRows: nat, row: ResultRow)
    requires row in ResultsOf(table, f, maxRows).rows
    ensures IsGroupRow(row, Matching(table, f)) && Group(Matching(table, f), row.key) != []
  {
    RowsAreTheGroups(Matching(table, f));
    assert row in Ranked(Matching(table, f));
    SeenIffGrouped(Matching(table, f), row.key);
  }

  /** On every page: a row's device, branch and commit are each what the first of
      its runs to record it says, and its model and token count are its first run's. */
  lemma MetadataMeans(table: seq<Run>, f: ResultsFilter, maxRows: nat, row: ResultRow)
    requires row in ResultsOf(table, f, maxRows).rows
    ensures
      var g := Group(Matching(table, f), row.key);
      && g != []
      && IsFirstSet(row.deviceModel, g, (r: Run) => r.deviceModel)
      && IsFirstSet(row.gitBranch, g, (r: Run) => r.gitBranch)
      && IsFirstSet(row.gitCommitTimestamp, g, (r: Run) => r.gitCommitTimestamp)
      && IsFirstSet(row.gitCommitSubject, g, (r: Run) => r.gitCommitSubject)
      && row.modelOriginalName == (match g[0].modelOriginalName case Some(name) => name case None => "")
      && row.inputTokenCount == g[0].inputTokenCount
  {
    var g := Group(Matching(table, f), row.key);
    PageRowsAreGroupRows(table, f, maxRows, row);
    FirstSetMeans(g, DeviceModelOf, (r: Run) => r.deviceModel);
    FirstSetMeans(g, BranchOf, (r: Run) => r.gitBranch);
    FirstSetMeans(g, CommitTimeOf, (r: Run) => r.gitCommitTimestamp);
    FirstSetMeans(g, SubjectOf, (r: Run) => r.gitCommitSubject);
  }

  // ----- Counts -------------------------------------------------------------

  lemma CountColumns(g: seq<Run>)
    ensures CountOf(g, NotSucceeded) == |Filter(g, (r: Run) => !r.exitStatus.Succeeded?)|
    ensures CountOf(g, FailedCheck) == |Filter(g, (r: Run) => r.exitStatus.Succeeded? && r.correctness.Failed?)|
    ensures CountOf(g, Throttled) == |Filter(g, (r: Run) => r.host.thermalThrottling == Some(1))|
  {
    FilterAgrees(g, NotSucceeded, (r: Run) => !r.exitStatus.Succeeded?);
    FilterAgrees(g, FailedCheck, (r: Run) => r.exitStatus.Succeeded? && r.correctness.Failed?);
    FilterAgrees(g, Throttled, (r: Run) => r.host.thermalThrottling == Some(1));
  }

  /** On every page: the counts of a row, run by run. */
  lemma CountsMean(table: seq<Run>, f: ResultsFilter, maxRows: nat, row: ResultRow)
    requires row in ResultsOf(table, f, maxRows).rows
    ensures
      var g := Group(Matching(table, f), row.key);
      && row.totalRuns == |g|
      && row.notSucceeded == |Filter(g, (r: Run) => !r.exitStatus.Succeeded?)|
      && row.correctnessFailed ==
           |Filter(g, (r: Run) => r.exitStatus.Succeeded? && r.correctness.Failed?)|
      && row.throttled == |Filter(g, (r: Run) => r.host.thermalThrottling == Some(1))|
  {
    var g := Group(Matching(table, f), row.key);
    PageRowsAreGroupRows(table, f, maxRows, row);
    CountColumns(g);
  }

  // ----- Samples ------------------------------------------------------------

  lemma FilterPermutes<T(!new)>(a: seq<T>, b: seq<T>, p: T -> bool)
    requires multiset(a) == multiset(b)
    ensures multiset(Filter(a, p)) == multiset(Filter(b, p))
    ensures |Filter(a, p)| == |Filter(b, p)|
  {
    forall x: T ensures multiset(Filter(a, p))[x] == multiset(Filter(b, p))[x] {
      FilterCounts(a, p, x);
      FilterCounts(b, p, x);
    }
    assert multiset(Filter(a, p)) == multiset(Filter(b, p));
    assert |multiset(Filter(a, p))| == |Filter(a, p)| && |multiset(Filter(b, p))| == |Filter(b, p)|;
  }

  /** Whether a run makes `x` a sample of the metric. */
  function Records(metric: Run -> Option<real>, x: real): Run -> bool {
    r => Succeeded(r) && metric(r) == Some(x)
  }

  lemma OneMoreSample(before: seq<Run>, last: Run, metric: Run -> Option<real>, x: real)
    ensures multiset(Samples(before + [last], metric))[x] ==
      multiset(Samples(before, metric))[x] + if Records(metric, x)(last) then 1 else 0
  {
    var added := if Succeeded(last) && metric(last).Some? then [metric(last).value] else [];
    SamplesSnoc(before, last, metric);
    assert Samples(before + [last], metric) == Samples(before, metric) + added;
    assert multiset(added)[x] == if Records(metric, x)(last) then 1 else 0;
  }

  ghost predicate CountedRight(rows: seq<Run>, metric: Run -> Option<real>, x: real) {
    multiset(Samples(rows, metric))[x] == |Filter(rows, Records(metric, x))|
  }

  lemma CountedSnoc(before: seq<Run>, last: Run, metric: Run -> Option<real>, x: real)
    requires CountedRight(before, metric, x)
    ensures CountedRight(before + [last], metric, x)
  {
    OneMoreSample(before, last, metric, x);
    FilterAppend(before, last, Records(metric, x));
  }

  /** How often a value is a sample: once per succeeded run that recorded it. */
  lemma {:induction false} SamplesCounted(rows: seq<Run>, metric: Run -> Option<real>, x: real)
    ensures CountedRight(rows, metric, x)
  {
    if rows != [] {
      var before, last := rows[..|rows| - 1], rows[|rows| - 1];
      assert rows == before + [last];
      SamplesCounted(before, metric, x);
      CountedSnoc(before, last, metric, x);
    }
  }

  /** One sample per succeeded run that has the column, and none other. */
  ghost predicate AreSamples(samples: seq<real>, g: seq<Run>, column: Run -> Option<real>) {
    forall x :: multiset(samples)[x] == Occurrences(g, column, x)
  }

  function Occurrences(g: seq<Run>, column: Run -> Option<real>, x: real): nat {
    |Filter(g, (r: Run) => r.exitStatus.Succeeded? && column(r) == Some(x))|
  }

  ghost predicate SummariseColumn(stats: Option<MetricStats>, g: seq<Run>, column: Run -> Option<real>) {
    exists samples ::
      AreSamples(samples, g, column) && if stats.Some? then Summarises(stats.value, samples) else samples == []
  }

  lemma StatsSummariseColumn(g: seq<Run>, metric: Run -> Option<real>, same: Run -> Option<real>)
    requires forall r :: metric(r) == same(r)
    ensures SummariseColumn(StatsOf(Samples(g, metric)), g, same)
  {
    var samples := Samples(g, metric);
    forall x ensures multiset(samples)[x] == Occurrences(g, same, x) {
      SamplesCounted(g, metric, x);
      FilterAgrees(g, Records(metric, x), (r: Run) => r.exitStatus.Succeeded? && same(r) == Some(x));
    }
    assert AreSamples(samples, g, same);
    StatsSummarise(samples);
  }

  /** On every page: a row's statistics are those of the rates that its succeeded
      runs recorded, and there are none exactly when no such run recorded one. */
  lemma StatisticsMean(table: seq<Run>, f: ResultsFilter, maxRows: nat, row: ResultRow)
    requires row in ResultsOf(table, f, maxRows).rows
    ensures
      var g := Group(Matching(table, f), row.key);
      && SummariseColumn(row.prefill, g, (r: Run) => Some(r.prefill))
      && SummariseColumn(row.decode, g, (r: Run) => r.decode)
  {
    var g := Group(Matching(table, f), row.key);
    PageRowsAreGroupRows(table, f, maxRows, row);
    StatsSummariseColumn(g, PrefillOf, (r: Run) => Some(r.prefill));
    StatsSummariseColumn(g, DecodeOf, (r: Run) => r.decode);
  }

  // ----- The last tie-break -------------------------------------------------

  predicate OptionalTextBefore(a: Option<string>, b: Option<string>) {
    a != b && (a.None? || (b.Some? && TextBefore(a.value, b.value)))
  }

  predicate OptionalNumberBefore(a: Option<int>, b: Option<int>) {
    a.None? || (b.Some? && a.value < b.value)
  }

  /** The first field that differs decides; nothing recorded comes first. */
  predicate FieldsBefore(a: ConfigKey, b: ConfigKey) {
    if a.platform != b.platform then a.platform.Android?
    else if a.deviceClass != b.deviceClass then a.deviceClass.Internal?
    else if a.deviceSerial != b.deviceSerial then TextBefore(a.deviceSerial, b.deviceSerial)
    else if a.modelAssetId != b.modelAssetId then TextBefore(a.modelAssetId, b.modelAssetId)
    else if a.gitCommitSha != b.gitCommitSha then TextBefore(a.gitCommitSha, b.gitCommitSha)
    else if a.gitDirty != b.gitDirty then !a.gitDirty
    else if a.sumdDriverVersion != b.sumdDriverVersion then OptionalTextBefore(a.sumdDriverVersion, b.sumdDriverVersion)
    else if a.bspVersion != b.bspVersion then OptionalTextBefore(a.bspVersion, b.bspVersion)
    else if a.gpuClockMhz != b.gpuClockMhz then OptionalNumberBefore(a.gpuClockMhz, b.gpuClockMhz)
    else if a.mifClockMhz != b.mifClockMhz then OptionalNumberBefore(a.mifClockMhz, b.mifClockMhz)
    else if a.intClockMhz != b.intClockMhz then OptionalNumberBefore(a.intClockMhz, b.intClockMhz)
    else if a.hostAccelerator != b.hostAccelerator then OptionalTextBefore(a.hostAccelerator, b.hostAccelerator)
    else TextBefore(a.promptSha256, b.promptSha256)
  }

  /** Strictly before, component by component. */
  predicate Less(xs: seq<seq<int>>, ys: seq<seq<int>>) {
    xs != ys && KeyLeq(xs, ys)
  }

  lemma LessAfter(xs: seq<seq<int>>, ys: seq<seq<int>>, i: nat)
    requires i < |xs| == |ys|
    ensures Less(xs[i..], ys[i..]) <==> if xs[i] != ys[i] then LexLeq(xs[i], ys[i]) else Less(xs[i + 1..], ys[i + 1..])
  {
    var x, y, xs', ys' := xs[i], ys[i], xs[i + 1..], ys[i + 1..];
    assert xs[i..] == [x] + xs' && ys[i..] == [y] + ys';
    KeyLeqStep(x, xs', y, ys');
    LexTotal(x, y);
    assert [x] + xs' == [y] + ys' <==> x == y && xs' == ys' by {
      assert ([x] + xs')[0] == x && ([y] + ys')[0] == y;
      assert ([x] + xs')[1..] == xs' && ([y] + ys')[1..] == ys';
    }
  }

  lemma TextFields(s: string, t: string)
    ensures Codes(s) == Codes(t) <==> s == t
  {
    CodesInjective(s, t);
  }

  lemma OptionalTextFields(a: Option<string>, b: Option<string>)
    ensures TextImage(a) == TextImage(b) <==> a == b
    ensures a != b ==> (LexLeq(TextImage(a), TextImage(b)) <==> OptionalTextBefore(a, b))
  {
    TextImageInjective(a, b);
    if a.Some? && b.Some? {
      assert TextImage(a)[1..] == Codes(a.value) && TextImage(b)[1..] == Codes(b.value);
    }
  }

  lemma OptionalNumberFields(a: Option<int>, b: Option<int>)
    ensures NumberImage(a) == NumberImage(b) <==> a == b
    ensures a != b ==> (LexLeq(NumberImage(a), NumberImage(b)) <==> OptionalNumberBefore(a, b))
  {
    NumberImageInjective(a, b);
    if a.Some? && b.Some? {
      assert NumberImage(a)[1..] == [a.value] && NumberImage(b)[1..] == [b.value];
      LexLeqOne(a.value, b.value);
    }
  }

  lemma FlagFields(p: bool, q: bool)
    ensures [if p then 1 else 0] == [if q then 1 else 0] <==> p == q
    ensures p != q ==> (LexLeq([if p then 1 else 0], [if q then 1 else 0]) <==> !p)
  {
    LexLeqOne(if p then 1 else 0, if q then 1 else 0);
  }

  lemma FlagsDecide(a: ConfigKey, b: ConfigKey, xs: seq<seq<int>>, ys: seq<seq<int>>)
    requires xs == KeyImage(a) && ys == KeyImage(b)
    ensures Less(xs, ys) <==>
      if a.platform != b.platform then a.platform.Android?
      else if a.deviceClass != b.deviceClass then a.deviceClass.Internal?
      else Less(xs[2..], ys[2..])
  {
    FlagFields(!a.platform.Android?, !b.platform.Android?);
    FlagFields(!a.deviceClass.Internal?, !b.deviceClass.Internal?);
    assert xs[0..] == xs && ys[0..] == ys;
    LessAfter(xs, ys, 0);
    LessAfter(xs, ys, 1);
  }

  lemma NamesDecide(a: ConfigKey, b: ConfigKey, xs: seq<seq<int>>, ys: seq<seq<int>>)
    requires xs == KeyImage(a) && ys == KeyImage(b)
    ensures Less(xs[2..], ys[2..]) <==>
      if a.deviceSerial != b.deviceSerial then TextBefore(a.deviceSerial, b.deviceSerial)
      else if a.modelAssetId != b.modelAssetId then TextBefore(a.modelAssetId, b.modelAssetId)
      else if a.gitCommitSha != b.gitCommitSha then TextBefore(a.gitCommitSha, b.gitCommitSha)
      else Less(xs[5..], ys[5..])
  {
    TextFields(a.deviceSerial, b.deviceSerial);
    TextFields(a.modelAssetId, b.modelAssetId);
    TextFields(a.gitCommitSha, b.gitCommitSha);
    LessAfter(xs, ys, 2);
    LessAfter(xs, ys, 3);
    LessAfter(xs, ys, 4);
  }

  lemma LabFieldsDecide(a: ConfigKey, b: ConfigKey, xs: seq<seq<int>>, ys: seq<seq<int>>)
    requires xs == KeyImage(a) && ys == KeyImage(b)
    ensures Less(xs[5..], ys[5..]) <==>
      if a.gitDirty != b.gitDirty then !a.gitDirty
      else if a.sumdDriverVersion != b.sumdDriverVersion then OptionalTextBefore(a.sumdDriverVersion, b.sumdDriverVersion)
      else if a.bspVersion != b.bspVersion then OptionalTextBefore(a.bspVersion, b.bspVersion)
      else if a.gpuClockMhz != b.gpuClockMhz then OptionalNumberBefore(a.gpuClockMhz, b.gpuClockMhz)
      else if a.mifClockMhz != b.mifClockMhz then OptionalNumberBefore(a.mifClockMhz, b.mifClockMhz)
      else Less(xs[10..], ys[10..])
  {
    OptionalTextFields(a.sumdDriverVersion, b.sumdDriverVersion);
    OptionalTextFields(a.bspVersion, b.bspVersion);
    OptionalNumberFields(a.gpuClockMhz, b.gpuClockMhz);
    OptionalNumberFields(a.mifClockMhz, b.mifClockMhz);
    FlagFields(a.gitDirty, b.gitDirty);
    LessAfter(xs, ys, 5);
    LessAfter(xs, ys, 6);
    LessAfter(xs, ys, 7);
    LessAfter(xs, ys, 8);
    LessAfter(xs, ys, 9);
  }

  lemma LastFieldsDecide(a: ConfigKey, b: ConfigKey, xs: seq<seq<int>>, ys: seq<seq<int>>)
    requires xs == KeyImage(a) && ys == KeyImage(b)
    ensures Less(xs[10..], ys[10..]) <==>
      if a.intClockMhz != b.intClockMhz then OptionalNumberBefore(a.intClockMhz, b.intClockMhz)
      else if a.hostAccelerator != b.hostAccelerator then OptionalTextBefore(a.hostAccelerator, b.hostAccelerator)
      else TextBefore(a.promptSha256, b.promptSha256)
  {
    OptionalNumberFields(a.intClockMhz, b.intClockMhz);
    OptionalTextFields(a.hostAccelerator, b.hostAccelerator);
    TextFields(a.promptSha256, b.promptSha256);
    LessAfter(xs, ys, 10);
    LessAfter(xs, ys, 11);
    LessAfter(xs, ys, 12);
    assert xs[13..] == [] && ys[13..] == [];
  }

  /** The key order in words: its fields in declaration order. */
  lemma KeyOrderMeans(a: ConfigKey, b: ConfigKey)
    ensures KeyBefore(a, b) <==> FieldsBefore(a, b)
  {
    if a != b && KeyImage(a) == KeyImage(b) {
      KeyImageInjective(a, b);
    }
    FlagsDecide(a, b, KeyImage(a), KeyImage(b));
    NamesDecide(a, b, KeyImage(a), KeyImage(b));
    LabFieldsDecide(a, b, KeyImage(a), KeyImage(b));
    LastFieldsDecide(a, b, KeyImage(a), KeyImage(b));
  }
}
