/** Grouped results: one pass over the matching runs, oldest first, folds each
    into the accumulator of its configuration key; the groups are then ranked
    and truncated. */
module Results {
  import opened Prelude
  import opened Domain
  import opened Sorting
  import opened Statistics
  import opened Runs
  import opened ConfigKeys

  datatype ResultRow = ResultRow(
    key: ConfigKey,
    deviceModel: Option<string>,
    modelOriginalName: string,
    gitBranch: Option<string>,
    gitCommitTimestamp: Option<int>,
    gitCommitSubject: Option<string>,
    inputTokenCount: int,
    prefill: Option<MetricStats>,
    decode: Option<MetricStats>,
    totalRuns: nat,
    notSucceeded: nat,
    correctnessFailed: nat,
    throttled: nat,
    firstStartedAt: int,
    lastStartedAt: int)

  datatype ResultsPage = ResultsPage(rows: seq<ResultRow>, truncated: bool)

  datatype Metadata = Metadata(
    deviceModel: Option<string>,
    gitBranch: Option<string>,
    gitCommitTimestamp: Option<int>,
    gitCommitSubject: Option<string>,
    modelOriginalName: string,
    inputTokenCount: int)

  datatype Accumulator = Accumulator(
    metadata: Metadata,
    prefill: seq<real>,
    decode: seq<real>,
    totalRuns: nat,
    notSucceeded: nat,
    correctnessFailed: nat,
    throttled: nat,
    firstStartedAt: Option<int>,
    lastStartedAt: Option<int>)

  const EMPTY_METADATA := Metadata(None, None, None, None, "", 0)
  const EMPTY := Accumulator(EMPTY_METADATA, [], [], 0, 0, 0, 0, None, None)

  // ----- The plain group-by -------------------------------------------------

  predicate Succeeded(r: Run) { r.exitStatus == ExitStatus.Succeeded }

  predicate FailedCheck(r: Run) { Succeeded(r) && r.correctness == CorrectnessResult.Failed }

  predicate NotSucceeded(r: Run) { !Succeeded(r) }

  predicate Throttled(r: Run) { r.host.thermalThrottling == Some(1) }

  function DeviceModelOf(r: Run): Option<string> { r.deviceModel }

  function BranchOf(r: Run): Option<string> { r.gitBranch }

  function CommitTimeOf(r: Run): Option<int> { r.gitCommitTimestamp }

  function SubjectOf(r: Run): Option<string> { r.gitCommitSubject }

  function PrefillOf(r: Run): Option<real> { Some(r.prefill) }

  function DecodeOf(r: Run): Option<real> { r.decode }

  function CountOf(rows: seq<Run>, p: Run -> bool): nat {
    |Filter(rows, p)|
  }

  predicate AllUnset<T>(rows: seq<Run>, column: Run -> Option<T>) {
    forall i :: 0 <= i < |rows| ==> column(rows[i]).None?
  }

  /** The first value that is set, in order. */
  function FirstSet<T>(rows: seq<Run>, column: Run -> Option<T>): Option<T> {
    if rows == [] then None
    else
      var before := FirstSet(rows[..|rows| - 1], column);
      if before.Some? then before else column(rows[|rows| - 1])
  }

  lemma {:induction false} FirstSetIsFirst<T>(rows: seq<Run>, column: Run -> Option<T>)
    ensures FirstSet(rows, column).None? <==> AllUnset(rows, column)
    ensures FirstSet(rows, column).Some? ==>
      exists i :: 0 <= i < |rows| && column(rows[i]) == FirstSet(rows, column) && AllUnset(rows[..i], column)
  {
    if rows != [] {
      var n := |rows| - 1;
      FirstSetIsFirst(rows[..n], column);
      assert forall i :: 0 <= i <= n ==> rows[..n][..i] == rows[..i];
    }
  }

  /** A metric's samples: one per succeeded run that recorded it, in order. */
  function Samples(rows: seq<Run>, metric: Run -> Option<real>): (s: seq<real>)
    ensures |s| <= CountOf(rows, Succeeded)
  {
    if rows == [] then []
    else
      var last := rows[|rows| - 1];
      assert rows == rows[..|rows| - 1] + [last];
      FilterAppend(rows[..|rows| - 1], last, Succeeded);
      Samples(rows[..|rows| - 1], metric)
      + if Succeeded(last) && metric(last).Some? then [metric(last).value] else []
  }

  function OrEmpty(name: Option<string>): string {
    if name.Some? then name.value else ""
  }

  function MetadataOf(rows: seq<Run>): Metadata {
    Metadata(
      FirstSet(rows, DeviceModelOf),
      FirstSet(rows, BranchOf),
      FirstSet(rows, CommitTimeOf),
      FirstSet(rows, SubjectOf),
      if rows == [] then "" else OrEmpty(rows[0].modelOriginalName),
      if rows == [] then 0 else rows[0].inputTokenCount)
  }

  /** What a group's row is made of, said of all its runs at once. */
  function Summary(rows: seq<Run>): Accumulator {
    Accumulator(
      MetadataOf(rows),
      Samples(rows, PrefillOf),
      Samples(rows, DecodeOf),
      |rows|,
      CountOf(rows, NotSucceeded),
      CountOf(rows, FailedCheck),
      CountOf(rows, Throttled),
      if rows == [] then None else Some(rows[0].startedAt),
      if rows == [] then None else Some(rows[|rows| - 1].startedAt))
  }

  /** The runs of one configuration, in order. */
  function Group(rows: seq<Run>, key: ConfigKey): (g: seq<Run>)
    ensures forall r :: r in g <==> r in rows && KeyOf(r) == key
  {
    Filter(rows, r => KeyOf(r) == key)
  }

  /** The configurations present, by first appearance. */
  function KeysSeen(rows: seq<Run>): (keys: seq<ConfigKey>)
    ensures Distinct(keys)
    ensures forall k :: k in keys <==> exists r :: r in rows && KeyOf(r) == k
  {
    if rows == [] then []
    else
      var before, last := rows[..|rows| - 1], rows[|rows| - 1];
      assert forall r :: r in rows <==> r in before || r == last;
      if KeyOf(last) in KeysSeen(before) then KeysSeen(before) else KeysSeen(before) + [KeyOf(last)]
  }

  function RowWith(key: ConfigKey, acc: Accumulator, first: int): ResultRow {
    ResultRow(key, acc.metadata.deviceModel, acc.metadata.modelOriginalName, acc.metadata.gitBranch,
      acc.metadata.gitCommitTimestamp, acc.metadata.gitCommitSubject, acc.metadata.inputTokenCount,
      StatsOf(acc.prefill), StatsOf(acc.decode), acc.totalRuns, acc.notSucceeded,
      acc.correctnessFailed, acc.throttled, first,
      if acc.lastStartedAt.Some? then acc.lastStartedAt.value else first)
  }

  function RowOf(key: ConfigKey, acc: Accumulator): Option<ResultRow> {
    if acc.firstStartedAt.Some? then Some(RowWith(key, acc, acc.firstStartedAt.value)) else None
  }

  /** The row of a configuration; the default is for one without runs. */
  function RowFor(key: ConfigKey, rows: seq<Run>): (row: ResultRow)
    ensures row.key == key
  {
    var g := Group(rows, key);
    RowWith(key, Summary(g), if g != [] then g[0].startedAt else 0)
  }

  function RowsFor(keys: seq<ConfigKey>, rows: seq<Run>): (result: seq<ResultRow>)
    ensures |result| == |keys| && forall i :: 0 <= i < |keys| ==> result[i] == RowFor(keys[i], rows)
  {
    seq(|keys|, i requires 0 <= i < |keys| => RowFor(keys[i], rows))
  }

  /** Newest commit first, then model name, then serial, then the whole key. */
  function RankImage(row: ResultRow): seq<seq<int>> {
    var when := if row.gitCommitTimestamp.Some? then row.gitCommitTimestamp.value else row.firstStartedAt;
    [[-when], Codes(row.modelOriginalName), Codes(row.key.deviceSerial)] + KeyImage(row.key)
  }

  predicate RanksBefore(a: ResultRow, b: ResultRow) {
    KeyLeq(RankImage(a), RankImage(b))
  }

  lemma SeenKeysHaveRuns(rows: seq<Run>)
    ensures forall k :: k in KeysSeen(rows) ==> Group(rows, k) != []
  {
    forall k | k in KeysSeen(rows) ensures Group(rows, k) != [] {
      var r :| r in rows && KeyOf(r) == k;
      assert r in Group(rows, k);
    }
  }

  /** One row per configuration, ranked. */
  function Ranked(rows: seq<Run>): seq<ResultRow> {
    Sort(RanksBefore, RowsFor(KeysSeen(rows), rows))
  }

  /** `ORDER BY started_at ASC, id ASC`. */
  predicate OldestFirst(a: Run, b: Run) {
    NewestFirst(b, a)
  }

  function Matching(table: seq<Run>, f: ResultsFilter): seq<Run> {
    Sort(OldestFirst, Filter(table, r => Selects(f.AsRunListFilter(), r)))
  }

  function ResultsOf(table: seq<Run>, f: ResultsFilter, maxRows: nat): ResultsPage {
    var ranked := Ranked(Matching(table, f));
    ResultsPage(if |ranked| <= maxRows then ranked else ranked[..maxRows], |ranked| > maxRows)
  }

  // ----- The streaming fold -------------------------------------------------

  lemma SnocPrefix<T>(s: seq<T>, x: T)
    ensures (s + [x])[..|s + [x]| - 1] == s && (s + [x])[|s + [x]| - 1] == x
  {
  }

  lemma FirstSetSnoc<T>(rows: seq<Run>, r: Run, column: Run -> Option<T>)
    ensures FirstSet(rows + [r], column) ==
      if FirstSet(rows, column).Some? then FirstSet(rows, column) else column(r)
  {
    SnocPrefix(rows, r);
  }

  lemma SamplesSnoc(rows: seq<Run>, r: Run, metric: Run -> Option<real>)
    ensures Samples(rows + [r], metric) ==
      Samples(rows, metric) + if Succeeded(r) && metric(r).Some? then [metric(r).value] else []
  {
    SnocPrefix(rows, r);
  }

  lemma MetadataSnoc(rows: seq<Run>, r: Run)
    ensures
      var before, after := MetadataOf(rows), MetadataOf(rows + [r]);
      && after.deviceModel == (if before.deviceModel.None? then r.deviceModel else before.deviceModel)
      && after.gitBranch == (if before.gitBranch.None? then r.gitBranch else before.gitBranch)
      && after.gitCommitTimestamp ==
           (if before.gitCommitTimestamp.None? then r.gitCommitTimestamp else before.gitCommitTimestamp)
      && after.gitCommitSubject == (if before.gitCommitSubject.None? then r.gitCommitSubject else before.gitCommitSubject)
      && after.modelOriginalName == (if rows == [] then OrEmpty(r.modelOriginalName) else before.modelOriginalName)
      && after.inputTokenCount == (if rows == [] then r.inputTokenCount else before.inputTokenCount)
  {
    FirstSetSnoc(rows, r, DeviceModelOf);
    FirstSetSnoc(rows, r, BranchOf);
    FirstSetSnoc(rows, r, CommitTimeOf);
    FirstSetSnoc(rows, r, SubjectOf);
    assert (rows + [r])[0] == if rows == [] then r else rows[0];
  }

  method AddMetadata(acc: Metadata, first: bool, r: Run, ghost seen: seq<Run>) returns (result: Metadata)
    requires acc == MetadataOf(seen) && first == (seen == [])
    ensures result == MetadataOf(seen + [r])
  {
    result := acc;
    if result.deviceModel.None? {
      result := result.(deviceModel := r.deviceModel);
    }
    if first {
      result := result.(modelOriginalName := OrEmpty(r.modelOriginalName), inputTokenCount := r.inputTokenCount);
    }
    if result.gitBranch.None? {
      result := result.(gitBranch := r.gitBranch);
    }
    if result.gitCommitTimestamp.None? {
      result := result.(gitCommitTimestamp := r.gitCommitTimestamp);
    }
    if result.gitCommitSubject.None? {
      result := result.(gitCommitSubject := r.gitCommitSubject);
    }
    MetadataSnoc(seen, r);
  }

  lemma CountSnoc(rows: seq<Run>, r: Run, p: Run -> bool)
    ensures CountOf(rows + [r], p) == CountOf(rows, p) + if p(r) then 1 else 0
  {
    FilterAppend(rows, r, p);
  }

  lemma SummarySnoc(rows: seq<Run>, r: Run)
    ensures
      var before, after := Summary(rows), Summary(rows + [r]);
      && after.metadata == MetadataOf(rows + [r])
      && after.prefill == before.prefill + (if Succeeded(r) then [r.prefill] else [])
      && after.decode == before.decode + (if Succeeded(r) && r.decode.Some? then [r.decode.value] else [])
      && after.totalRuns == before.totalRuns + 1
      && after.notSucceeded == before.notSucceeded + (if Succeeded(r) then 0 else 1)
      && after.correctnessFailed == before.correctnessFailed + (if FailedCheck(r) then 1 else 0)
      && after.throttled == before.throttled + (if Throttled(r) then 1 else 0)
      && after.firstStartedAt == (if rows == [] then Some(r.startedAt) else before.firstStartedAt)
      && after.lastStartedAt == Some(r.startedAt)
  {
    SamplesSnoc(rows, r, PrefillOf);
    SamplesSnoc(rows, r, DecodeOf);
    CountSnoc(rows, r, NotSucceeded);
    CountSnoc(rows, r, FailedCheck);
    CountSnoc(rows, r, Throttled);
    assert (rows + [r])[0] == if rows == [] then r else rows[0];
  }

  /** The outcome of one run: a sample or two, or a failure. */
  method AddOutcome(acc: Accumulator, r: Run) returns (result: Accumulator)
    ensures result == acc.(
      prefill := acc.prefill + (if Succeeded(r) then [r.prefill] else []),
      decode := acc.decode + (if Succeeded(r) && r.decode.Some? then [r.decode.value] else []),
      notSucceeded := acc.notSucceeded + (if Succeeded(r) then 0 else 1),
      correctnessFailed := acc.correctnessFailed + (if FailedCheck(r) then 1 else 0))
  {
    result := acc;
    if r.exitStatus == ExitStatus.Succeeded {
      result := result.(prefill := result.prefill + [r.prefill]);
      if r.decode.Some? {
        result := result.(decode := result.decode + [r.decode.value]);
      }
      if r.correctness == CorrectnessResult.Failed {
        result := result.(correctnessFailed := result.correctnessFailed + 1);
      }
    } else {
      result := result.(notSucceeded := result.notSucceeded + 1);
    }
  }

  /** Folds one more run into its group. */
  method Accumulate(acc: Accumulator, r: Run, ghost seen: seq<Run>) returns (result: Accumulator)
    requires acc == Summary(seen)
    ensures result == Summary(seen + [r])
  {
    var metadata := AddMetadata(acc.metadata, acc.totalRuns == 0, r, seen);
    result := acc.(metadata := metadata, totalRuns := acc.totalRuns + 1);
    if Throttled(r) {
      result := result.(throttled := result.throttled + 1);
    }
    if result.firstStartedAt.None? {
      result := result.(firstStartedAt := Some(r.startedAt));
    }
    result := result.(lastStartedAt := Some(r.startedAt));
    result := AddOutcome(result, r);
    SummarySnoc(seen, r);
  }

  ghost predicate IsGroupBy(groups: map<ConfigKey, Accumulator>, rows: seq<Run>) {
    && (forall k :: k in groups <==> k in KeysSeen(rows))
    && (forall k :: k in groups ==> groups[k] == Summary(Group(rows, k)))
  }

  lemma GroupSnoc(rows: seq<Run>, r: Run, key: ConfigKey)
    ensures Group(rows + [r], key) == if KeyOf(r) == key then Group(rows, key) + [r] else Group(rows, key)
  {
    FilterAppend(rows, r, x => KeyOf(x) == key);
  }

  lemma KeysSeenSnoc(rows: seq<Run>, r: Run, k: ConfigKey)
    ensures k in KeysSeen(rows + [r]) <==> k in KeysSeen(rows) || k == KeyOf(r)
  {
    SnocPrefix(rows, r);
  }

  /** A run changes its own group only. */
  lemma GroupBySnoc(groups: map<ConfigKey, Accumulator>, rows: seq<Run>, r: Run, updated: Accumulator)
    requires IsGroupBy(groups, rows)
    requires updated == Summary(Group(rows, KeyOf(r)) + [r])
    ensures IsGroupBy(groups[KeyOf(r) := updated], rows + [r])
  {
    var after := groups[KeyOf(r) := updated];
    forall k ensures k in after <==> k in KeysSeen(rows + [r]) {
      KeysSeenSnoc(rows, r, k);
    }
    forall k | k in after ensures after[k] == Summary(Group(rows + [r], k)) {
      GroupSnoc(rows, r, k);
    }
  }

  lemma SeenIffGrouped(rows: seq<Run>, key: ConfigKey)
    ensures key in KeysSeen(rows) <==> Group(rows, key) != []
  {
    if Group(rows, key) != [] {
      assert Group(rows, key)[0] in Group(rows, key);
    }
    SeenKeysHaveRuns(rows);
  }

  /** One row of the stream: its group's entry is created if need be, and updated. */
  method FoldOne(groups: map<ConfigKey, Accumulator>, r: Run, ghost seen: seq<Run>)
    returns (result: map<ConfigKey, Accumulator>)
    requires IsGroupBy(groups, seen)
    ensures IsGroupBy(result, seen + [r])
  {
    var key := KeyOf(r);
    SeenIffGrouped(seen, key);
    var acc := if key in groups then groups[key] else EMPTY;
    var updated := Accumulate(acc, r, Group(seen, key));
    GroupBySnoc(groups, seen, r, updated);
    result := groups[key := updated];
  }

  method Fold(rows: seq<Run>) returns (groups: map<ConfigKey, Accumulator>)
    ensures IsGroupBy(groups, rows)
  {
    groups := map[];
    for i := 0 to |rows|
      invariant IsGroupBy(groups, rows[..i])
    {
      groups := FoldOne(groups, rows[i], rows[..i]);
      assert rows[..i + 1] == rows[..i] + [rows[i]];
    }
    assert rows[..|rows|] == rows;
  }

  // ----- Ranking ------------------------------------------------------------

  lemma RankIsTotal()
    ensures TotalPreorder(RanksBefore)
  {
    ByImage(RankImage, RanksBefore);
  }

  /** The key is the last component, so two configurations never tie. */
  lemma RanksSeparateKeys(a: ResultRow, b: ResultRow)
    requires RanksBefore(a, b) && RanksBefore(b, a)
    ensures a.key == b.key
  {
    KeyTotal(RankImage(a), RankImage(b));
    assert RankImage(a)[3..] == KeyImage(a.key) && RankImage(b)[3..] == KeyImage(b.key);
    KeyImageInjective(a.key, b.key);
  }

  lemma {:induction false} DistinctCount<T>(s: seq<T>, x: T)
    requires Distinct(s)
    ensures multiset(s)[x] == if x in s then 1 else 0
  {
    if s != [] {
      assert Distinct(s[1..]);
      DistinctCount(s[1..], x);
      assert s == [s[0]] + s[1..];
      assert s[0] !in s[1..];
    }
  }

  lemma DistinctSameElements<T(!new)>(a: seq<T>, b: seq<T>)
    requires Distinct(a) && Distinct(b)
    requires forall x :: x in a <==> x in b
    ensures multiset(a) == multiset(b)
  {
    forall x: T ensures multiset(a)[x] == multiset(b)[x] {
      DistinctCount(a, x);
      DistinctCount(b, x);
    }
  }

  lemma RowsAreDistinct(keys: seq<ConfigKey>, rows: seq<Run>)
    requires Distinct(keys)
    ensures Distinct(RowsFor(keys, rows))
    ensures forall row :: row in RowsFor(keys, rows) <==> row.key in keys && row == RowFor(row.key, rows)
    ensures AntisymmetricOn(RanksBefore, RowsFor(keys, rows))
  {
    var result := RowsFor(keys, rows);
    forall row: ResultRow | row.key in keys && row == RowFor(row.key, rows) ensures row in result {
      var i :| 0 <= i < |keys| && keys[i] == row.key;
      assert result[i] == row;
    }
    forall a, b | a in result && b in result && RanksBefore(a, b) && RanksBefore(b, a) ensures a == b {
      RanksSeparateKeys(a, b);
    }
  }

  /** The rows, in whatever order the groups were taken, are those of the keys. */
  lemma AnyOrderOfKeys(order: seq<ConfigKey>, rows: seq<Run>)
    requires Distinct(order) && forall k :: k in order <==> k in KeysSeen(rows)
    ensures multiset(RowsFor(order, rows)) == multiset(RowsFor(KeysSeen(rows), rows))
  {
    RowsAreDistinct(order, rows);
    RowsAreDistinct(KeysSeen(rows), rows);
    DistinctSameElements(RowsFor(order, rows), RowsFor(KeysSeen(rows), rows));
  }

  /** The ranking does not depend on the order in which the groups are taken. */
  lemma RankingForgetsOrder(taken: seq<ResultRow>, rows: seq<Run>)
    requires multiset(taken) == multiset(RowsFor(KeysSeen(rows), rows))
    ensures Sort(RanksBefore, taken) == Ranked(rows)
  {
    RowsAreDistinct(KeysSeen(rows), rows);
    RankIsTotal();
    SortForgetsOrder(RanksBefore, RowsFor(KeysSeen(rows), rows), taken);
  }

  method ToRow(key: ConfigKey, acc: Accumulator) returns (row: Option<ResultRow>)
    ensures row == RowOf(key, acc)
  {
    if acc.firstStartedAt.None? {
      return None;
    }
    var prefill := FromSamples(acc.prefill);
    var decode := FromSamples(acc.decode);
    var first := acc.firstStartedAt.value;
    var m := acc.metadata;
    return Some(ResultRow(key, m.deviceModel, m.modelOriginalName, m.gitBranch, m.gitCommitTimestamp,
      m.gitCommitSubject, m.inputTokenCount, prefill, decode, acc.totalRuns, acc.notSucceeded,
      acc.correctnessFailed, acc.throttled, first,
      if acc.lastStartedAt.Some? then acc.lastStartedAt.value else first));
  }

  /** The rows of every key outside `left`, in the order they were taken. */
  ghost predicate Collected(rows: seq<ResultRow>, order: seq<ConfigKey>, left: set<ConfigKey>, runs: seq<Run>) {
    && Distinct(order)
    && (forall k :: k in left ==> k in KeysSeen(runs))
    && (forall k :: k in order <==> k in KeysSeen(runs) && k !in left)
    && rows == RowsFor(order, runs)
  }

  lemma GroupHasARow(runs: seq<Run>, key: ConfigKey)
    requires key in KeysSeen(runs)
    ensures RowOf(key, Summary(Group(runs, key))) == Some(RowFor(key, runs))
  {
    SeenIffGrouped(runs, key);
  }

  lemma RowsForSnoc(order: seq<ConfigKey>, key: ConfigKey, runs: seq<Run>)
    ensures RowsFor(order + [key], runs) == RowsFor(order, runs) + [RowFor(key, runs)]
  {
  }

  lemma DistinctSnoc<T>(s: seq<T>, x: T)
    requires Distinct(s) && x !in s
    ensures Distinct(s + [x]) && forall y :: y in s + [x] <==> y in s || y == x
  {
  }

  lemma CollectOne(rows: seq<ResultRow>, order: seq<ConfigKey>, left: set<ConfigKey>, runs: seq<Run>, key: ConfigKey)
    requires Collected(rows, order, left, runs) && key in left
    ensures Collected(rows + [RowFor(key, runs)], order + [key], left - {key}, runs)
  {
    DistinctSnoc(order, key);
    RowsForSnoc(order, key, runs);
  }

  /** Turns the groups into rows, taking the groups in any order. */
  method CollectRows(groups: map<ConfigKey, Accumulator>, ghost runs: seq<Run>)
    returns (rows: seq<ResultRow>)
    requires IsGroupBy(groups, runs)
    ensures multiset(rows) == multiset(RowsFor(KeysSeen(runs), runs))
  {
    var keys := groups.Keys;
    ghost var order: seq<ConfigKey> := [];
    rows := [];
    while keys != {}
      invariant keys <= groups.Keys
      invariant Collected(rows, order, keys, runs)
      decreases keys
    {
      var key :| key in keys;
      var row := ToRow(key, groups[key]);
      GroupHasARow(runs, key);
      CollectOne(rows, order, keys, runs, key);
      if row.Some? {
        rows := rows + [row.value];
      }
      order := order + [key];
      keys := keys - {key};
    }
    AnyOrderOfKeys(order, runs);
  }

  method Results(table: seq<Run>, f: ResultsFilter, maxRows: nat) returns (page: ResultsPage)
    ensures page == ResultsOf(table, f, maxRows)
  {
    var qb := new QueryBuilder();
    qb.PushWhereClauses(f.AsRunListFilter());
    var clauses := qb.clauses;
    var matching := Sort(OldestFirst, Filter(table, r => AllHold(clauses, r)));
    FilterAgrees(table, r => AllHold(clauses, r), r => Selects(f.AsRunListFilter(), r));
    var groups := Fold(matching);
    var rows := CollectRows(groups, matching);
    RankingForgetsOrder(rows, matching);
    rows := Sort(RanksBefore, rows);
    var truncated := |rows| > maxRows;
    if truncated {
      rows := rows[..maxRows];
    }
    return ResultsPage(rows, truncated);
  }
}
