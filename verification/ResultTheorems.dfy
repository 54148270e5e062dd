/** What the grouped results promise about the runs they are computed from. */
module ResultTheorems {
  import opened Prelude
  import opened Sorting
  import opened Statistics
  import opened Runs
  import opened ConfigKeys
  import opened Results

  /** `row` is what the plain group-by says of its key. */
  ghost predicate IsGroupRow(row: ResultRow, rows: seq<Run>) {
    row.key in KeysSeen(rows) && row == RowFor(row.key, rows)
  }

  // ----- Grouping -----------------------------------------------------------

  function KeyOfRow(row: ResultRow): ConfigKey { row.key }

  lemma UnrankedRows(rows: seq<Run>)
    ensures DistinctBy(KeyOfRow, RowsFor(KeysSeen(rows), rows))
    ensures forall row :: row in RowsFor(KeysSeen(rows), rows) <==> IsGroupRow(row, rows)
  {
    RowsAreDistinct(KeysSeen(rows), rows);
  }

  /** One row per configuration, each computed from exactly its own runs. */
  lemma RowsAreTheGroups(rows: seq<Run>)
    ensures forall row :: row in Ranked(rows) <==> IsGroupRow(row, rows)
    ensures DistinctBy(KeyOfRow, Ranked(rows))
    ensures |Ranked(rows)| == |KeysSeen(rows)|
  {
    UnrankedRows(rows);
    var unranked := RowsFor(KeysSeen(rows), rows);
    SortPermutes(RanksBefore, unranked);
    SortKeepsDistinct(RanksBefore, KeyOfRow, unranked);
  }

  /** Every run is one of those that its configuration's row counts. */
  lemma EveryRunHasARow(rows: seq<Run>, r: Run)
    requires r in rows
    ensures exists row ::
      row in Ranked(rows) && row.key == KeyOf(r) && r in Group(rows, row.key) && row.totalRuns == |Group(rows, row.key)|
  {
    SeenIffGrouped(rows, KeyOf(r));
    var row := RowFor(KeyOf(r), rows);
    RowsAreTheGroups(rows);
    assert IsGroupRow(row, rows);
  }

  function TotalRuns(rows: seq<ResultRow>): nat {
    if rows == [] then 0 else rows[0].totalRuns + TotalRuns(rows[1..])
  }

  lemma {:induction false} TotalOfInsert(row: ResultRow, rows: seq<ResultRow>)
    ensures TotalRuns(Insert(RanksBefore, row, rows)) == row.totalRuns + TotalRuns(rows)
  {
    if rows != [] && !RanksBefore(row, rows[0]) {
      TotalOfInsert(row, rows[1..]);
    }
  }

  lemma {:induction false} TotalOfSort(rows: seq<ResultRow>)
    ensures TotalRuns(Sort(RanksBefore, rows)) == TotalRuns(rows)
  {
    if rows != [] {
      TotalOfSort(rows[1..]);
      TotalOfInsert(rows[0], Sort(RanksBefore, rows[1..]));
    }
  }

  function GroupSizes(keys: seq<ConfigKey>, rows: seq<Run>): nat {
    if keys == [] then 0 else |Group(rows, keys[0])| + GroupSizes(keys[1..], rows)
  }

  lemma {:induction false} GroupSizesOfNone(keys: seq<ConfigKey>)
    ensures GroupSizes(keys, []) == 0
  {
    if keys != [] {
      GroupSizesOfNone(keys[1..]);
    }
  }

  lemma {:induction false} GroupSizesSnoc(keys: seq<ConfigKey>, rows: seq<Run>, r: Run)
    requires Distinct(keys)
    ensures GroupSizes(keys, rows + [r]) == GroupSizes(keys, rows) + if KeyOf(r) in keys then 1 else 0
  {
    if keys != [] {
      assert Distinct(keys[1..]) && keys[0] !in keys[1..];
      GroupSizesSnoc(keys[1..], rows, r);
      GroupSnoc(rows, r, keys[0]);
    }
  }

  /** Distinct keys that cover the runs split them without loss or overlap. */
  lemma {:induction false} GroupsPartition(keys: seq<ConfigKey>, rows: seq<Run>)
    requires Distinct(keys) && forall r :: r in rows ==> KeyOf(r) in keys
    ensures GroupSizes(keys, rows) == |rows|
  {
    if rows == [] {
      GroupSizesOfNone(keys);
    } else {
      var n := |rows| - 1;
      GroupsPartition(keys, rows[..n]);
      GroupSizesSnoc(keys, rows[..n], rows[n]);
      assert rows[..n] + [rows[n]] == rows;
    }
  }

  lemma {:induction false} TotalOfRowsFor(keys: seq<ConfigKey>, rows: seq<Run>)
    ensures TotalRuns(RowsFor(keys, rows)) == GroupSizes(keys, rows)
  {
    if keys != [] {
      var rest := keys[1..];
      TotalOfRowsFor(rest, rows);
      assert RowsFor(keys, rows)[1..] == RowsFor(rest, rows);
    }
  }

  /** Every matching run is counted in exactly one row. */
  lemma RunsAreConserved(table: seq<Run>, f: ResultsFilter)
    ensures TotalRuns(Ranked(Matching(table, f))) == |Filter(table, r => Selects(f.AsRunListFilter(), r))|
  {
    var rows := Matching(table, f);
    SortPermutes(OldestFirst, Filter(table, r => Selects(f.AsRunListFilter(), r)));
    TotalOfSort(RowsFor(KeysSeen(rows), rows));
    TotalOfRowsFor(KeysSeen(rows), rows);
    GroupsPartition(KeysSeen(rows), rows);
  }

  // ----- Counts -------------------------------------------------------------

  lemma {:induction false} PrefillPerSuccess(rows: seq<Run>)
    ensures |Samples(rows, PrefillOf)| == CountOf(rows, Succeeded)
    ensures CountOf(rows, Succeeded) + CountOf(rows, NotSucceeded) == |rows|
    ensures CountOf(rows, FailedCheck) <= CountOf(rows, Succeeded)
  {
    if rows != [] {
      var n := |rows| - 1;
      assert rows == rows[..n] + [rows[n]];
      PrefillPerSuccess(rows[..n]);
      FilterAppend(rows[..n], rows[n], Succeeded);
      FilterAppend(rows[..n], rows[n], NotSucceeded);
      FilterAppend(rows[..n], rows[n], FailedCheck);
    }
  }

  function SampleCount(stats: Option<MetricStats>): nat {
    if stats.Some? then stats.value.n else 0
  }

  /** The counts of a row add up. */
  lemma CountsAddUp(row: ResultRow, rows: seq<Run>)
    requires IsGroupRow(row, rows)
    ensures SampleCount(row.prefill) + row.notSucceeded == row.totalRuns
    ensures SampleCount(row.decode) <= SampleCount(row.prefill)
    ensures row.correctnessFailed <= SampleCount(row.prefill)
    ensures row.throttled <= row.totalRuns
    ensures row.prefill.None? <==> row.notSucceeded == row.totalRuns
  {
    var g := Group(rows, row.key);
    PrefillPerSuccess(g);
    StatsSummarise(Samples(g, PrefillOf));
    StatsSummarise(Samples(g, DecodeOf));
  }

  // ----- Times --------------------------------------------------------------

  lemma OldestFirstIsPreorder()
    ensures TotalPreorder(OldestFirst)
  {
    NewestFirstIsPreorder();
  }

  lemma {:induction false} FilterKeepsSorted(s: seq<Run>, p: Run -> bool)
    requires Sorted(OldestFirst, s)
    ensures Sorted(OldestFirst, Filter(s, p))
  {
    if s != [] {
      var kept := Filter(s[1..], p);
      FilterKeepsSorted(s[1..], p);
      OldestFirstIsPreorder();
      forall r | r in kept ensures OldestFirst(s[0], r) {
        var i :| 0 <= i < |s[1..]| && s[1..][i] == r;
        assert OldestFirst(s[0], s[i + 1]);
      }
    }
  }

  lemma OlderStartsEarlier(a: Run, b: Run)
    requires OldestFirst(a, b)
    ensures a.startedAt <= b.startedAt
  {
    ImageOrder(CursorOf(a), CursorOf(b));
  }

  lemma GroupIsSorted(table: seq<Run>, f: ResultsFilter, key: ConfigKey)
    ensures Sorted(OldestFirst, Group(Matching(table, f), key))
  {
    OldestFirstIsPreorder();
    SortSorts(OldestFirst, Filter(table, r => Selects(f.AsRunListFilter(), r)));
    FilterKeepsSorted(Matching(table, f), r => KeyOf(r) == key);
  }

  lemma EndsAreExtremes(g: seq<Run>, r: Run)
    requires Sorted(OldestFirst, g) && r in g
    ensures g[0].startedAt <= r.startedAt <= g[|g| - 1].startedAt
  {
    var i :| 0 <= i < |g| && g[i] == r;
    OlderStartsEarlier(g[0], g[i]);
    OlderStartsEarlier(g[i], g[|g| - 1]);
  }

  ghost predicate SpansStarts(first: int, last: int, g: seq<Run>) {
    && (exists r :: r in g && r.startedAt == first)
    && (exists r :: r in g && r.startedAt == last)
    && (forall r :: r in g ==> first <= r.startedAt <= last)
  }

  /** A row's first and last start are the extremes over its runs. */
  lemma FirstAndLastAreExtremes(table: seq<Run>, f: ResultsFilter, row: ResultRow)
    requires IsGroupRow(row, Matching(table, f))
    ensures SpansStarts(row.firstStartedAt, row.lastStartedAt, Group(Matching(table, f), row.key))
  {
    var g := Group(Matching(table, f), row.key);
    SeenIffGrouped(Matching(table, f), row.key);
    GroupIsSorted(table, f, row.key);
    assert g[0] in g && g[|g| - 1] in g;
    forall r | r in g ensures row.firstStartedAt <= r.startedAt <= row.lastStartedAt {
      EndsAreExtremes(g, r);
    }
  }

  // ----- Ranking ------------------------------------------------------------

  predicate TextBefore(s: string, t: string) {
    s != t && LexLeq(Codes(s), Codes(t))
  }

  predicate KeyBefore(a: ConfigKey, b: ConfigKey) {
    a != b && KeyLeq(KeyImage(a), KeyImage(b))
  }

  /** When a configuration's commit was made or, unknown that, its first run. */
  function When(row: ResultRow): int {
    match row.gitCommitTimestamp
    case Some(t) => t
    case None => row.firstStartedAt
  }

  /** The ranking in words: newest commit first, then model name, then device
      serial, then the key. */
  predicate Precedes(a: ResultRow, b: ResultRow) {
    if When(a) != When(b) then When(a) > When(b)
    else if a.modelOriginalName != b.modelOriginalName then TextBefore(a.modelOriginalName, b.modelOriginalName)
    else if a.key.deviceSerial != b.key.deviceSerial then TextBefore(a.key.deviceSerial, b.key.deviceSerial)
    else KeyBefore(a.key, b.key)
  }

  lemma KeyLeqStep(x: seq<int>, xs: seq<seq<int>>, y: seq<int>, ys: seq<seq<int>>)
    ensures KeyLeq([x] + xs, [y] + ys) <==> LexLeq(x, y) && (x == y ==> KeyLeq(xs, ys))
  {
    assert ([x] + xs)[1..] == xs && ([y] + ys)[1..] == ys;
  }

  lemma RankImageParts(row: ResultRow)
    ensures RankImage(row) ==
      [[-When(row)]] + ([Codes(row.modelOriginalName)] + ([Codes(row.key.deviceSerial)] + KeyImage(row.key)))
  {
  }

  lemma LexLeqOne(x: int, y: int)
    ensures LexLeq([x], [y]) <==> x <= y
    ensures [x] == [y] <==> x == y
  {
    assert [x][0] == x && [y][0] == y && [x][1..] == [];
  }

  lemma RankingMeans(a: ResultRow, b: ResultRow)
    requires a.key != b.key
    ensures RanksBefore(a, b) <==> Precedes(a, b)
  {
    var ka, kb := KeyImage(a.key), KeyImage(b.key);
    var sa, sb := Codes(a.key.deviceSerial), Codes(b.key.deviceSerial);
    var na, nb := Codes(a.modelOriginalName), Codes(b.modelOriginalName);
    CodesInjective(a.key.deviceSerial, b.key.deviceSerial);
    CodesInjective(a.modelOriginalName, b.modelOriginalName);
    RankImageParts(a);
    RankImageParts(b);
    KeyLeqStep([-When(a)], [na] + ([sa] + ka), [-When(b)], [nb] + ([sb] + kb));
    KeyLeqStep(na, [sa] + ka, nb, [sb] + kb);
    KeyLeqStep(sa, ka, sb, kb);
    LexLeqOne(-When(a), -When(b));
    LexTotal(na, nb);
    LexTotal(sa, sb);
  }

  ghost predicate StrictlyRanked(rows: seq<ResultRow>) {
    forall i, j :: 0 <= i < j < |rows| ==> RanksBefore(rows[i], rows[j]) && !RanksBefore(rows[j], rows[i])
  }

  lemma RankedStrictly(rows: seq<Run>)
    ensures StrictlyRanked(Ranked(rows))
  {
    var ranked := Ranked(rows);
    RowsAreTheGroups(rows);
    RankIsTotal();
    UnrankedRows(rows);
    SortSorts(RanksBefore, RowsFor(KeysSeen(rows), rows));
    forall i, j | 0 <= i < j < |ranked|
      ensures RanksBefore(ranked[i], ranked[j]) && !RanksBefore(ranked[j], ranked[i])
    {
      assert KeyOfRow(ranked[i]) != KeyOfRow(ranked[j]);
      if RanksBefore(ranked[j], ranked[i]) {
        RanksSeparateKeys(ranked[i], ranked[j]);
      }
    }
  }

  /** `best` is the head of a strict ranking, and every other row comes after it. */
  ghost predicate IsBest(best: seq<ResultRow>, rows: seq<Run>) {
    && StrictlyRanked(best)
    && (forall a :: a in best ==> IsGroupRow(a, rows))
    && (forall a, b :: a in best && IsGroupRow(b, rows) && b !in best ==> RanksBefore(a, b))
  }

  lemma HeadComesFirst(ranked: seq<ResultRow>, n: nat, a: ResultRow, b: ResultRow)
    requires StrictlyRanked(ranked) && n <= |ranked|
    requires a in ranked[..n] && b in ranked && b !in ranked[..n]
    ensures RanksBefore(a, b)
  {
    var i :| 0 <= i < n && ranked[..n][i] == a;
    var j :| 0 <= j < |ranked| && ranked[j] == b;
    assert j < n ==> ranked[..n][j] == b;
    assert ranked[i] == a;
  }

  lemma HeadIsBest(rows: seq<Run>, ranked: seq<ResultRow>, n: nat)
    requires ranked == Ranked(rows) && n <= |ranked|
    ensures IsBest(ranked[..n], rows)
  {
    RowsAreTheGroups(rows);
    RankedStrictly(rows);
    assert StrictlyRanked(ranked[..n]);
    forall a, b | a in ranked[..n] && IsGroupRow(b, rows) && b !in ranked[..n] ensures RanksBefore(a, b) {
      HeadComesFirst(ranked, n, a, b);
    }
  }

  /** The page holds the best-ranked rows, strictly in order; it is truncated
      exactly when there are more configurations than it may hold. */
  lemma PageIsTheBest(table: seq<Run>, f: ResultsFilter, maxRows: nat)
    ensures
      var page := ResultsOf(table, f, maxRows);
      var keys := KeysSeen(Matching(table, f));
      && IsBest(page.rows, Matching(table, f))
      && (page.truncated <==> |keys| > maxRows)
      && |page.rows| == if |keys| > maxRows then maxRows else |keys|
  {
    var rows := Matching(table, f);
    RowsAreTheGroups(rows);
    var n := if |Ranked(rows)| <= maxRows then |Ranked(rows)| else maxRows;
    HeadIsBest(rows, Ranked(rows), n);
    assert Ranked(rows)[..|Ranked(rows)|] == Ranked(rows);
  }

  // ----- Independence -------------------------------------------------------

  lemma SameStartSameRun(table: seq<Run>, a: Run, b: Run)
    requires IsTable(table) && a in table && b in table && OldestFirst(a, b) && OldestFirst(b, a)
    ensures a == b
  {
    KeyTotal(CursorImage(CursorOf(a)), CursorImage(CursorOf(b)));
    ImageOrder(CursorOf(a), CursorOf(b));
  }

  /** A run of another configuration, wherever it falls in the stream, leaves a
      configuration's group as it was. */
  lemma OtherGroupsUnchanged(table: seq<Run>, f: ResultsFilter, r: Run, key: ConfigKey)
    requires IsTable(table + [r]) && KeyOf(r) != key
    ensures Group(Matching(table + [r], f), key) == Group(Matching(table, f), key)
  {
    var selects := (x: Run) => Selects(f.AsRunListFilter(), x);
    var isKey := (x: Run) => KeyOf(x) == key;
    var before, after := Filter(table, selects), Filter(table + [r], selects);
    assert before == Filter(table, x => Selects(f.AsRunListFilter(), x)) by {
      FilterAgrees(table, selects, x => Selects(f.AsRunListFilter(), x));
    }
    assert after == Filter(table + [r], x => Selects(f.AsRunListFilter(), x)) by {
      FilterAgrees(table + [r], selects, x => Selects(f.AsRunListFilter(), x));
    }
    FilterAppend(table, r, selects);
    OldestFirstIsPreorder();
    SortSorts(OldestFirst, before);
    SortSorts(OldestFirst, after);
    SortPermutes(OldestFirst, before);
    SortPermutes(OldestFirst, after);
    var a, b := Filter(Sort(OldestFirst, after), isKey), Filter(Sort(OldestFirst, before), isKey);
    FilterAgrees(Sort(OldestFirst, after), isKey, x => KeyOf(x) == key);
    FilterAgrees(Sort(OldestFirst, before), isKey, x => KeyOf(x) == key);
    FilterKeepsSorted(Sort(OldestFirst, after), isKey);
    FilterKeepsSorted(Sort(OldestFirst, before), isKey);
    forall x ensures multiset(a)[x] == multiset(b)[x] {
      FilterCounts(Sort(OldestFirst, after), isKey, x);
      FilterCounts(Sort(OldestFirst, before), isKey, x);
    }
    forall x, y | x in a && y in a && OldestFirst(x, y) && OldestFirst(y, x) ensures x == y {
      SameStartSameRun(table + [r], x, y);
    }
    SortedUnique(OldestFirst, a, b);
  }

  /** The results depend on the runs in the table, not on how they are stored. */
  lemma ResultsIgnoreStorageOrder(a: seq<Run>, b: seq<Run>, f: ResultsFilter, maxRows: nat)
    requires IsTable(a) && multiset(a) == multiset(b)
    ensures ResultsOf(a, f, maxRows) == ResultsOf(b, f, maxRows)
  {
    var x, y := Filter(a, r => Selects(f.AsRunListFilter(), r)), Filter(b, r => Selects(f.AsRunListFilter(), r));
    forall r ensures multiset(x)[r] == multiset(y)[r] {
      FilterCounts(a, r => Selects(f.AsRunListFilter(), r), r);
      FilterCounts(b, r => Selects(f.AsRunListFilter(), r), r);
    }
    forall r, s | r in x && s in x && OldestFirst(r, s) && OldestFirst(s, r) ensures r == s {
      SameStartSameRun(a, r, s);
    }
    OldestFirstIsPreorder();
    SortForgetsOrder(OldestFirst, x, y);
  }
}
