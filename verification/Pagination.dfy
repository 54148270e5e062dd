/** Keyset pagination of the run listing, and a client that follows the cursors
    while runs keep being inserted. */
module Pagination {
  import opened Prelude
  import opened Sorting
  import opened Runs

  datatype RunPage = RunPage(items: seq<Run>, nextCursor: Option<RunCursor>)

  predicate AfterCursor(cursor: Option<RunCursor>, r: Run) {
    cursor.Some? ==> Below(CursorOf(r), cursor.value)
  }

  predicate Wanted(f: RunListFilter, cursor: Option<RunCursor>, r: Run) {
    Selects(f, r) && AfterCursor(cursor, r)
  }

  /** Every run from the cursor on, newest first. */
  function Query(table: seq<Run>, f: RunListFilter, cursor: Option<RunCursor>): seq<Run> {
    Sort(NewestFirst, Filter(table, r => Wanted(f, cursor, r)))
  }

  function Min(a: nat, b: nat): nat {
    if a < b then a else b
  }

  /** The page a request gets: the first `limit` runs from the cursor on, and the
      position of the last of them when there are more. */
  function PageOf(table: seq<Run>, f: RunListFilter, limit: nat, cursor: Option<RunCursor>): RunPage {
    var all := Query(table, f, cursor);
    RunPage(all[..Min(limit, |all|)],
            if 0 < limit < |all| then Some(CursorOf(all[limit - 1])) else None)
  }

  /** `SELECT ... WHERE ... ORDER BY started_at DESC, id DESC LIMIT n`. */
  function Execute(table: seq<Run>, clauses: seq<Clause>, cursor: Option<RunCursor>, n: nat): seq<Run> {
    var all := Sort(NewestFirst, Filter(table, r => AllHold(clauses, r) && AfterCursor(cursor, r)));
    all[..Min(n, |all|)]
  }

  /** Asks for one run more than the page holds to learn whether there are more. */
  method ListRuns(table: seq<Run>, f: RunListFilter, limit: nat, cursor: Option<RunCursor>) returns (page: RunPage)
    ensures page == PageOf(table, f, limit, cursor)
  {
    var qb := new QueryBuilder();
    qb.PushWhereClauses(f);
    var clauses := qb.clauses;
    FilterAgrees(table, r => AllHold(clauses, r) && AfterCursor(cursor, r), r => Wanted(f, cursor, r));
    var items := Execute(table, clauses, cursor, limit + 1);
    var nextCursor: Option<RunCursor> := None;
    if |items| > limit {
      items := items[..limit];
      if items != [] {
        nextCursor := Some(CursorOf(items[|items| - 1]));
      }
    }
    return RunPage(items, nextCursor);
  }

  // ----- What a query returns -----------------------------------------------

  lemma {:induction false} FilterKeepsTable(table: seq<Run>, p: Run -> bool)
    requires IsTable(table)
    ensures IsTable(Filter(table, p))
  {
    if table != [] {
      FilterKeepsTable(table[1..], p);
      assert forall r :: r in Filter(table[1..], p) ==> r in table[1..] && r.id != table[0].id;
    }
  }

  lemma QueryIsExact(table: seq<Run>, f: RunListFilter, cursor: Option<RunCursor>)
    requires IsTable(table)
    ensures forall r :: r in Query(table, f, cursor) <==> r in table && Wanted(f, cursor, r)
    ensures Descending(Query(table, f, cursor))
  {
    var kept := Filter(table, r => Wanted(f, cursor, r));
    var q := Query(table, f, cursor);
    FilterKeepsTable(table, r => Wanted(f, cursor, r));
    SortPermutes(NewestFirst, kept);
    NewestFirstIsPreorder();
    SortSorts(NewestFirst, kept);
    SortKeepsDistinct(NewestFirst, (r: Run) => r.id, kept);
    forall i, j | 0 <= i < j < |q| ensures Below(CursorOf(q[j]), CursorOf(q[i])) {
      assert NewestFirst(q[i], q[j]);
      assert ((r: Run) => r.id)(q[i]) != ((r: Run) => r.id)(q[j]);
      ImageOrder(CursorOf(q[j]), CursorOf(q[i]));
    }
  }

  /** A descending listing is determined by its runs. */
  lemma {:induction false} DescendingUnique(a: seq<Run>, b: seq<Run>)
    requires Descending(a) && Descending(b)
    requires forall r :: r in a <==> r in b
    ensures a == b
  {
    assert a != [] ==> a[0] in b;
    assert b != [] ==> b[0] in a;
    if a != [] {
      BelowIsStrictOrder(CursorOf(a[0]), CursorOf(b[0]), CursorOf(a[0]));
      assert a[0] == b[0];
      forall r ensures r in a[1..] <==> r in b[1..] {
        BelowIsStrictOrder(CursorOf(r), CursorOf(r), CursorOf(r));
        assert r in a <==> r == a[0] || r in a[1..];
        assert r in b <==> r == b[0] || r in b[1..];
      }
      DescendingUnique(a[1..], b[1..]);
    }
  }

  // ----- A walk over a growing table ----------------------------------------

  datatype Phase = NotStarted | At(cursor: RunCursor) | Finished

  datatype Walk = Walk(table: seq<Run>, phase: Phase, emitted: seq<Run>)

  datatype WalkEvent = InsertRun(run: Run) | Fetch(limit: nat)

  predicate IdUnused(table: seq<Run>, id: string) {
    forall r :: r in table ==> r.id != id
  }

  /** Inserting an id twice is refused, and so is a page size of zero. */
  function WalkStep(f: RunListFilter, w: Walk, e: WalkEvent): Walk {
    match e
    case InsertRun(run) =>
      if IdUnused(w.table, run.id) then w.(table := w.table + [run]) else w
    case Fetch(limit) =>
      if limit == 0 || w.phase.Finished? then w
      else
        var page := PageOf(w.table, f, limit, if w.phase.At? then Some(w.phase.cursor) else None);
        Walk(w.table, if page.nextCursor.Some? then At(page.nextCursor.value) else Finished, w.emitted + page.items)
  }

  /** The walk over `table` under a history of inserts and page requests. */
  function WalkAfter(f: RunListFilter, table: seq<Run>, history: seq<WalkEvent>): Walk {
    if history == [] then Walk(table, NotStarted, [])
    else WalkStep(f, WalkAfter(f, table, history[..|history| - 1]), history[|history| - 1])
  }

  /** The walk owes `r`: it was there before the first page, or was inserted
      later below the cursor last handed out. */
  ghost predicate Owed(f: RunListFilter, table: seq<Run>, history: seq<WalkEvent>, r: Run) {
    Selects(f, r) && (r in table || exists i :: 0 <= i < |history| && InsertedAhead(f, table, history, i, r))
  }

  ghost predicate InsertedAhead(f: RunListFilter, table: seq<Run>, history: seq<WalkEvent>, i: nat, r: Run)
    requires i < |history|
  {
    var w := WalkAfter(f, table, history[..i]);
    && history[i] == InsertRun(r) && IdUnused(w.table, r.id)
    && (w.phase.NotStarted? || (w.phase.At? && Below(CursorOf(r), w.phase.cursor)))
  }

  lemma OwedSnoc(f: RunListFilter, table: seq<Run>, history: seq<WalkEvent>, e: WalkEvent, r: Run)
    ensures Owed(f, table, history + [e], r) <==>
      Owed(f, table, history, r) || (Selects(f, r) && InsertedAhead(f, table, history + [e], |history|, r))
  {
    var all := history + [e];
    forall i | 0 <= i < |history|
      ensures InsertedAhead(f, table, all, i, r) == InsertedAhead(f, table, history, i, r)
    {
      assert all[..i] == history[..i];
    }
    if Owed(f, table, history, r) && r !in table {
      var i: nat :| i < |history| && InsertedAhead(f, table, history, i, r);
      assert InsertedAhead(f, table, all, i, r);
    }
  }

  /** Whether a walk that now inserts `r` owes it. */
  predicate IsAhead(f: RunListFilter, w: Walk, r: Run) {
    && Selects(f, r) && IdUnused(w.table, r.id)
    && (w.phase.NotStarted? || (w.phase.At? && Below(CursorOf(r), w.phase.cursor)))
  }

  function CursorOfWalk(w: Walk): Option<RunCursor> {
    if w.phase.At? then Some(w.phase.cursor) else None
  }

  /** Emitted so far: the owed runs down to the cursor; and below the cursor the
      table holds exactly the owed runs. */
  ghost predicate WalkOk(f: RunListFilter, w: Walk, owed: iset<Run>) {
    && IsTable(w.table)
    && Descending(w.emitted)
    && match w.phase
       case NotStarted =>
         w.emitted == [] && forall r :: r in owed <==> r in w.table && Selects(f, r)
       case At(c) =>
         && w.emitted != [] && CursorOf(w.emitted[|w.emitted| - 1]) == c
         && (forall r :: r in w.emitted <==> r in owed && !Below(CursorOf(r), c))
         && (forall r :: Below(CursorOf(r), c) ==> (r in owed <==> r in w.table && Selects(f, r)))
       case Finished =>
         forall r :: r in w.emitted <==> r in owed
  }

  lemma InsertKeepsWalk(f: RunListFilter, w: Walk, owed: iset<Run>, run: Run)
    requires WalkOk(f, w, owed)
    ensures WalkOk(f, WalkStep(f, w, InsertRun(run)), owed + if IsAhead(f, w, run) then iset{run} else iset{})
  {
    if w.phase.At? {
      BelowIsStrictOrder(CursorOf(run), w.phase.cursor, w.phase.cursor);
    }
  }

  /** What a request gets: the owed runs from the cursor on, in order. */
  lemma FetchedRows(f: RunListFilter, w: Walk, owed: iset<Run>, rows: seq<Run>)
    requires WalkOk(f, w, owed) && !w.phase.Finished?
    requires rows == Query(w.table, f, CursorOfWalk(w))
    ensures Descending(rows)
    ensures forall r :: r in rows ==> AfterCursor(CursorOfWalk(w), r)
    ensures forall r :: r in w.emitted ==> !AfterCursor(CursorOfWalk(w), r)
    ensures forall r :: r in owed <==> r in w.emitted || r in rows
    ensures forall r :: r in rows <==> r in w.table && Wanted(f, CursorOfWalk(w), r)
  {
    QueryIsExact(w.table, f, CursorOfWalk(w));
  }

  /** After a full page, what is emitted is what is not below the new cursor. */
  lemma SplitAtNewCursor(emitted: seq<Run>, rows: seq<Run>, limit: nat, cursor: Option<RunCursor>, r: Run)
    requires Descending(emitted) && Descending(rows) && 0 < limit <= |rows|
    requires cursor.None? ==> emitted == []
    requires forall x :: x in rows ==> AfterCursor(cursor, x)
    requires forall x :: x in emitted ==> !AfterCursor(cursor, x)
    ensures
      var last := CursorOf(rows[limit - 1]);
      && (r in emitted + rows[..limit] <==> (r in emitted || r in rows) && !Below(CursorOf(r), last))
      && (Below(CursorOf(r), last) ==> AfterCursor(cursor, r))
  {
    assert rows[limit - 1] in rows;
    RowsSplitAtCursor(rows, limit);
    EmittedAboveNext(emitted, rows, limit, cursor, r);
  }

  lemma FetchedOne(f: RunListFilter, w: Walk, owed: iset<Run>, limit: nat, rows: seq<Run>, r: Run)
    requires WalkOk(f, w, owed) && !w.phase.Finished?
    requires rows == Query(w.table, f, CursorOfWalk(w)) && 0 < limit < |rows|
    ensures
      var last := CursorOf(rows[limit - 1]);
      && (r in w.emitted + rows[..limit] <==> r in owed && !Below(CursorOf(r), last))
      && (Below(CursorOf(r), last) ==> (r in owed <==> r in w.table && Selects(f, r)))
  {
    FetchedRows(f, w, owed, rows);
    SplitAtNewCursor(w.emitted, rows, limit, CursorOfWalk(w), r);
  }

  lemma DescendsOn(f: RunListFilter, w: Walk, owed: iset<Run>, limit: nat, rows: seq<Run>)
    requires WalkOk(f, w, owed) && !w.phase.Finished?
    requires rows == Query(w.table, f, CursorOfWalk(w)) && limit <= |rows|
    ensures Descending(w.emitted + rows[..limit])
  {
    FetchedRows(f, w, owed, rows);
    FetchedStayDescending(w.emitted, rows, limit, CursorOfWalk(w));
  }

  lemma FetchMore(f: RunListFilter, w: Walk, owed: iset<Run>, limit: nat, rows: seq<Run>)
    requires WalkOk(f, w, owed) && !w.phase.Finished?
    requires rows == Query(w.table, f, CursorOfWalk(w)) && 0 < limit < |rows|
    ensures WalkOk(f, Walk(w.table, At(CursorOf(rows[limit - 1])), w.emitted + rows[..limit]), owed)
  {
    var last, emitted := CursorOf(rows[limit - 1]), w.emitted + rows[..limit];
    DescendsOn(f, w, owed, limit, rows);
    forall r
      ensures r in emitted <==> r in owed && !Below(CursorOf(r), last)
      ensures Below(CursorOf(r), last) ==> (r in owed <==> r in w.table && Selects(f, r))
    {
      FetchedOne(f, w, owed, limit, rows, r);
    }
    assert emitted[|emitted| - 1] == rows[limit - 1];
  }

  lemma FetchLast(f: RunListFilter, w: Walk, owed: iset<Run>, rows: seq<Run>)
    requires WalkOk(f, w, owed) && !w.phase.Finished?
    requires rows == Query(w.table, f, CursorOfWalk(w))
    ensures WalkOk(f, Walk(w.table, Finished, w.emitted + rows), owed)
  {
    FetchedRows(f, w, owed, rows);
    DescendsOn(f, w, owed, |rows|, rows);
    assert rows[..|rows|] == rows;
  }

  lemma FetchKeepsWalk(f: RunListFilter, w: Walk, owed: iset<Run>, limit: nat)
    requires WalkOk(f, w, owed)
    ensures WalkOk(f, WalkStep(f, w, Fetch(limit)), owed)
  {
    if limit > 0 && !w.phase.Finished? {
      var rows := Query(w.table, f, CursorOfWalk(w));
      if limit < |rows| {
        FetchMore(f, w, owed, limit, rows);
      } else {
        FetchLast(f, w, owed, rows);
        assert rows[..|rows|] == rows;
      }
    }
  }

  lemma FetchedStayDescending(emitted: seq<Run>, rows: seq<Run>, n: nat, cursor: Option<RunCursor>)
    requires Descending(emitted) && Descending(rows) && n <= |rows|
    requires cursor.None? ==> emitted == []
    requires cursor.Some? ==> emitted != [] && CursorOf(emitted[|emitted| - 1]) == cursor.value
    requires forall r :: r in rows ==> AfterCursor(cursor, r)
    ensures Descending(emitted + rows[..n])
  {
    var s := emitted + rows[..n];
    forall i, j | 0 <= i < j < |s| ensures Below(CursorOf(s[j]), CursorOf(s[i])) {
      if i < |emitted| <= j {
        assert s[j] in rows;
        BelowIsStrictOrder(CursorOf(s[j]), cursor.value, CursorOf(s[i]));
      }
    }
  }

  /** The runs before the next cursor are those not below it. */
  lemma RowsSplitAtCursor(rows: seq<Run>, limit: nat)
    requires Descending(rows) && 0 < limit <= |rows|
    ensures forall r :: r in rows[..limit] <==> r in rows && !Below(CursorOf(r), CursorOf(rows[limit - 1]))
  {
    var c := CursorOf(rows[limit - 1]);
    forall i | 0 <= i < |rows| ensures i < limit <==> !Below(CursorOf(rows[i]), c) {
      BelowIsStrictOrder(CursorOf(rows[i]), c, c);
    }
    forall r | r in rows[..limit] ensures r in rows && !Below(CursorOf(r), c) {
      var i :| 0 <= i < limit && rows[i] == r;
    }
  }

  lemma EmittedAboveNext(emitted: seq<Run>, rows: seq<Run>, limit: nat, cursor: Option<RunCursor>, r: Run)
    requires Descending(emitted) && 0 < limit <= |rows|
    requires cursor.None? ==> emitted == []
    requires cursor.Some? ==> Below(CursorOf(rows[limit - 1]), cursor.value)
    ensures cursor.Some? && Below(CursorOf(r), CursorOf(rows[limit - 1])) ==> Below(CursorOf(r), cursor.value)
  {
    if cursor.Some? {
      BelowIsStrictOrder(CursorOf(r), CursorOf(rows[limit - 1]), cursor.value);
    }
  }

  ghost function AllOwed(f: RunListFilter, table: seq<Run>, history: seq<WalkEvent>): iset<Run> {
    iset r | Owed(f, table, history, r)
  }

  lemma AllOwedSnoc(f: RunListFilter, table: seq<Run>, history: seq<WalkEvent>, e: WalkEvent)
    ensures AllOwed(f, table, history + [e]) == AllOwed(f, table, history) +
      if e.InsertRun? && IsAhead(f, WalkAfter(f, table, history), e.run) then iset{e.run} else iset{}
  {
    assert (history + [e])[..|history|] == history;
    forall r
      ensures Owed(f, table, history + [e], r) <==>
        Owed(f, table, history, r)
        || (e == InsertRun(r) && IsAhead(f, WalkAfter(f, table, history), r))
    {
      OwedSnoc(f, table, history, e, r);
    }
  }

  lemma {:induction false} WalkHolds(f: RunListFilter, table: seq<Run>, history: seq<WalkEvent>)
    requires IsTable(table)
    ensures WalkOk(f, WalkAfter(f, table, history), AllOwed(f, table, history))
  {
    if history != [] {
      var before, e := history[..|history| - 1], history[|history| - 1];
      var w, owed := WalkAfter(f, table, before), AllOwed(f, table, before);
      WalkHolds(f, table, before);
      AllOwedSnoc(f, table, before, e);
      assert before + [e] == history;
      match e
      case InsertRun(run) => InsertKeepsWalk(f, w, owed, run);
      case Fetch(limit) =>
        FetchKeepsWalk(f, w, owed, limit);
        assert owed + iset{} == owed;
    }
  }

  // ----- Main results -------------------------------------------------------

  /** Whatever is inserted between pages and whatever the page sizes: the walk
      emits strictly descending runs, and once it has finished it has emitted,
      exactly once each, the matching runs present at its first page and those
      inserted later below the cursor last handed out - no others. */
  lemma FinishedWalkIsExact(f: RunListFilter, table: seq<Run>, history: seq<WalkEvent>)
    requires IsTable(table) && WalkAfter(f, table, history).phase.Finished?
    ensures
      var emitted := WalkAfter(f, table, history).emitted;
      && Descending(emitted) && Distinct(emitted)
      && forall r :: r in emitted <==> Owed(f, table, history, r)
  {
    WalkHolds(f, table, history);
    var emitted := WalkAfter(f, table, history).emitted;
    forall i, j | 0 <= i < j < |emitted| ensures emitted[i] != emitted[j] {
      BelowIsStrictOrder(CursorOf(emitted[j]), CursorOf(emitted[i]), CursorOf(emitted[i]));
    }
  }

  /** A walk under way has emitted the owed runs down to its cursor. */
  lemma WalkSoFarIsExact(f: RunListFilter, table: seq<Run>, history: seq<WalkEvent>)
    requires IsTable(table) && WalkAfter(f, table, history).phase.At?
    ensures
      var w := WalkAfter(f, table, history);
      Descending(w.emitted)
      && forall r :: r in w.emitted <==> Owed(f, table, history, r) && !Below(CursorOf(r), w.phase.cursor)
  {
    WalkHolds(f, table, history);
  }

  lemma {:induction false} TableGrows(f: RunListFilter, table: seq<Run>, history: seq<WalkEvent>, i: nat, r: Run)
    requires i <= |history| && r in WalkAfter(f, table, history[..i]).table
    ensures r in WalkAfter(f, table, history).table
  {
    if i == |history| {
      assert history[..i] == history;
    } else {
      var n := |history| - 1;
      assert history[..n][..i] == history[..i];
      TableGrows(f, table, history[..n], i, r);
    }
  }

  /** An accepted insert puts the run in the table, where its id stays taken. */
  lemma InsertedOnce(f: RunListFilter, table: seq<Run>, history: seq<WalkEvent>, i: nat, j: nat, r: Run)
    requires i < j < |history| && history[i] == InsertRun(r) && IdUnused(WalkAfter(f, table, history[..i]).table, r.id)
    ensures !IdUnused(WalkAfter(f, table, history[..j]).table, r.id)
  {
    assert history[..i + 1][..i] == history[..i];
    assert history[..j][..i + 1] == history[..i + 1];
    TableGrows(f, table, history[..j], i + 1, r);
  }

  /** A matching run inserted between two pages is shown by the rest of the walk
      if and only if it sorts below the cursor handed out before; a start earlier
      than the cursor's does, so new runs need not sort above every cursor. */
  lemma LateRunShownIffBelow(f: RunListFilter, table: seq<Run>, before: seq<WalkEvent>, r: Run, later: seq<WalkEvent>)
    requires IsTable(table) && WalkAfter(f, table, before).phase.At?
    requires Selects(f, r) && IdUnused(WalkAfter(f, table, before).table, r.id)
    requires WalkAfter(f, table, before + [InsertRun(r)] + later).phase.Finished?
    ensures r in WalkAfter(f, table, before + [InsertRun(r)] + later).emitted
      <==> Below(CursorOf(r), WalkAfter(f, table, before).phase.cursor)
    ensures r.startedAt < WalkAfter(f, table, before).phase.cursor.startedAt ==>
      Below(CursorOf(r), WalkAfter(f, table, before).phase.cursor)
  {
    var all := before + [InsertRun(r)] + later;
    var n := |before|;
    assert all[..n] == before && all[n] == InsertRun(r);
    FinishedWalkIsExact(f, table, all);
    assert r !in table by {
      if r in table {
        assert before[..0] == [];
        TableGrows(f, table, before, 0, r);
      }
    }
    forall i: nat | i < |all| && InsertedAhead(f, table, all, i, r) ensures i == n {
      if i < n {
        InsertedOnce(f, table, all, i, n, r);
      } else if i > n {
        InsertedOnce(f, table, all, n, i, r);
      }
    }
    assert InsertedAhead(f, table, all, n, r) <==> Below(CursorOf(r), WalkAfter(f, table, before).phase.cursor);
  }

  /** The rest of a listing is the listing from its cursor. */
  lemma NextQueryIsRest(table: seq<Run>, f: RunListFilter, cursor: Option<RunCursor>, limit: nat)
    requires IsTable(table) && 0 < limit < |Query(table, f, cursor)|
    ensures
      var all := Query(table, f, cursor);
      Query(table, f, Some(CursorOf(all[limit - 1]))) == all[limit..]
  {
    var all := Query(table, f, cursor);
    var next := Some(CursorOf(all[limit - 1]));
    QueryIsExact(table, f, cursor);
    QueryIsExact(table, f, next);
    RowsSplitAtCursor(all, limit);
    forall r ensures r in Query(table, f, next) <==> r in all[limit..] {
      EmittedAboveNext([], all, limit, None, r);
      assert r in all <==> r in all[..limit] || r in all[limit..];
      if cursor.Some? {
        BelowIsStrictOrder(CursorOf(r), next.value, cursor.value);
      }
      if r in all[limit..] {
        var i :| limit <= i < |all| && all[i] == r;
        assert Below(CursorOf(r), next.value);
      }
    }
    DescendingUnique(Query(table, f, next), all[limit..]);
  }

  /** All pages of a table nobody adds to. */
  function Pages(table: seq<Run>, f: RunListFilter, limit: nat, cursor: Option<RunCursor>): seq<seq<Run>>
    requires IsTable(table) && limit > 0
    decreases |Query(table, f, cursor)|
  {
    var page := PageOf(table, f, limit, cursor);
    if page.nextCursor.None? then [page.items]
    else
      NextQueryIsRest(table, f, cursor, limit);
      [page.items] + Pages(table, f, limit, page.nextCursor)
  }

  function Flatten(pages: seq<seq<Run>>): seq<Run> {
    if pages == [] then [] else pages[0] + Flatten(pages[1..])
  }

  /** `max(1, ceil(n / limit))`. */
  function PageCount(n: nat, limit: nat): nat
    requires limit > 0
  {
    if n <= limit then 1 else 1 + PageCount(n - limit, limit)
  }

  lemma {:induction false} PageCountIsCeiling(n: nat, limit: nat)
    requires limit > 0
    ensures n > 0 ==> (PageCount(n, limit) - 1) * limit < n <= PageCount(n, limit) * limit
    ensures n == 0 ==> PageCount(n, limit) == 1
  {
    if n > limit {
      PageCountIsCeiling(n - limit, limit);
    }
  }

  lemma FlattenCons(page: seq<Run>, rest: seq<seq<Run>>)
    ensures Flatten([page] + rest) == page + Flatten(rest)
  {
    assert ([page] + rest)[1..] == rest;
  }

  lemma PageCases(table: seq<Run>, f: RunListFilter, limit: nat, cursor: Option<RunCursor>)
    requires limit > 0
    ensures
      var all := Query(table, f, cursor);
      var page := PageOf(table, f, limit, cursor);
      if |all| <= limit then page == RunPage(all, None)
      else page == RunPage(all[..limit], Some(CursorOf(all[limit - 1])))
  {
    var all := Query(table, f, cursor);
    assert all[..|all|] == all;
  }

  lemma LastPage(table: seq<Run>, f: RunListFilter, limit: nat, cursor: Option<RunCursor>)
    requires IsTable(table) && limit > 0 && |Query(table, f, cursor)| <= limit
    ensures Pages(table, f, limit, cursor) == [Query(table, f, cursor)] + []
  {
    PageCases(table, f, limit, cursor);
  }

  lemma FullPage(table: seq<Run>, f: RunListFilter, limit: nat, cursor: Option<RunCursor>)
    requires IsTable(table) && 0 < limit < |Query(table, f, cursor)|
    ensures
      var all := Query(table, f, cursor);
      var next := Some(CursorOf(all[limit - 1]));
      && Query(table, f, next) == all[limit..]
      && Pages(table, f, limit, cursor) == [all[..limit]] + Pages(table, f, limit, next)
  {
    PageCases(table, f, limit, cursor);
    NextQueryIsRest(table, f, cursor, limit);
  }

  /** With no inserts the pages concatenate to the sorted, filtered table, and
      there are as many as `PageCount` says. */
  lemma {:induction false} PagesAreTheListing(table: seq<Run>, f: RunListFilter, limit: nat, cursor: Option<RunCursor>)
    requires IsTable(table) && limit > 0
    ensures Flatten(Pages(table, f, limit, cursor)) == Query(table, f, cursor)
    ensures |Pages(table, f, limit, cursor)| == PageCount(|Query(table, f, cursor)|, limit)
    decreases |Query(table, f, cursor)|
  {
    var all := Query(table, f, cursor);
    if |all| <= limit {
      LastPage(table, f, limit, cursor);
      FlattenCons(all, []);
    } else {
      var next := Some(CursorOf(all[limit - 1]));
      FullPage(table, f, limit, cursor);
      PagesAreTheListing(table, f, limit, next);
      FlattenCons(all[..limit], Pages(table, f, limit, next));
      assert all == all[..limit] + all[limit..];
    }
  }

  // ----- What each filter field does ----------------------------------------

  /** Some page of the listing shows the run. */
  predicate IsListed(table: seq<Run>, f: RunListFilter, limit: nat, r: Run)
    requires IsTable(table) && limit > 0
  {
    r in Flatten(Pages(table, f, limit, None))
  }

  lemma ListedMeans(table: seq<Run>, f: RunListFilter, limit: nat, r: Run)
    requires IsTable(table) && limit > 0
    ensures IsListed(table, f, limit, r) <==> r in table && Selects(f, r)
  {
    PagesAreTheListing(table, f, limit, None);
    QueryIsExact(table, f, None);
  }

  /** The filter `f` with the clause's field set to its value. */
  function With(f: RunListFilter, c: Clause): RunListFilter {
    match c
    case PlatformIs(v) => f.(platform := Some(v))
    case DeviceClassIs(v) => f.(deviceClass := Some(v))
    case DeviceSerialIs(v) => f.(deviceSerial := Some(v))
    case ModelAssetIs(v) => f.(modelAssetId := Some(v))
    case CommitIs(v) => f.(gitCommitSha := Some(v))
    case BranchIs(v) => f.(gitBranch := Some(v))
    case DirtyIs(v) => f.(gitDirty := Some(v))
    case SumdIs(v) => f.(sumdDriverVersion := Some(v))
    case BspIs(v) => f.(bspVersion := Some(v))
    case GpuClockIs(v) => f.(gpuClockMhz := Some(v))
    case MifClockIs(v) => f.(mifClockMhz := Some(v))
    case IntClockIs(v) => f.(intClockMhz := Some(v))
    case AcceleratorIs(v) => f.(hostAccelerator := Some(v))
    case PromptIs(v) => f.(promptSha256 := Some(v))
    case ExitStatusIs(v) => f.(exitStatus := Some(v))
    case CorrectnessIs(v) => f.(correctness := Some(v))
  }

  /** The filter `f` with the clause's field unset. */
  function Without(f: RunListFilter, c: Clause): RunListFilter {
    match c
    case PlatformIs(_) => f.(platform := None)
    case DeviceClassIs(_) => f.(deviceClass := None)
    case DeviceSerialIs(_) => f.(deviceSerial := None)
    case ModelAssetIs(_) => f.(modelAssetId := None)
    case CommitIs(_) => f.(gitCommitSha := None)
    case BranchIs(_) => f.(gitBranch := None)
    case DirtyIs(_) => f.(gitDirty := None)
    case SumdIs(_) => f.(sumdDriverVersion := None)
    case BspIs(_) => f.(bspVersion := None)
    case GpuClockIs(_) => f.(gpuClockMhz := None)
    case MifClockIs(_) => f.(mifClockMhz := None)
    case IntClockIs(_) => f.(intClockMhz := None)
    case AcceleratorIs(_) => f.(hostAccelerator := None)
    case PromptIs(_) => f.(promptSha256 := None)
    case ExitStatusIs(_) => f.(exitStatus := None)
    case CorrectnessIs(_) => f.(correctness := None)
  }

  /** The column of the clause's field has its value; NULL has none. */
  predicate HasValue(r: Run, c: Clause) {
    match c
    case PlatformIs(v) => r.platform == v
    case DeviceClassIs(v) => r.deviceClass == v
    case DeviceSerialIs(v) => r.deviceSerial == v
    case ModelAssetIs(v) => r.modelAssetId == v
    case CommitIs(v) => r.gitCommitSha == v
    case BranchIs(v) => r.gitBranch.Some? && r.gitBranch.value == v
    case DirtyIs(v) => r.gitDirty == v
    case SumdIs(v) => r.host.sumdDriverVersion.Some? && r.host.sumdDriverVersion.value == v
    case BspIs(v) => r.host.bspVersion.Some? && r.host.bspVersion.value == v
    case GpuClockIs(v) => r.host.gpuClockMhz.Some? && r.host.gpuClockMhz.value == v
    case MifClockIs(v) => r.host.mifClockMhz.Some? && r.host.mifClockMhz.value == v
    case IntClockIs(v) => r.host.intClockMhz.Some? && r.host.intClockMhz.value == v
    case AcceleratorIs(v) => r.host.hostAccelerator.Some? && r.host.hostAccelerator.value == v
    case PromptIs(v) => r.promptSha256 == v
    case ExitStatusIs(v) => r.exitStatus == v
    case CorrectnessIs(v) => r.correctness == v
  }

  predicate Narrows(f: RunListFilter, c: Clause, r: Run) {
    Selects(With(f, c), r) <==> Selects(Without(f, c), r) && HasValue(r, c)
  }

  lemma SetDeviceFieldNarrows(f: RunListFilter, c: Clause, r: Run)
    requires c.PlatformIs? || c.DeviceClassIs? || c.DeviceSerialIs? || c.ModelAssetIs?
    ensures Narrows(f, c, r)
  {
  }

  lemma SetBuildFieldNarrows(f: RunListFilter, c: Clause, r: Run)
    requires c.CommitIs? || c.BranchIs? || c.DirtyIs?
    ensures Narrows(f, c, r)
  {
  }

  lemma SetLabFieldNarrows(f: RunListFilter, c: Clause, r: Run)
    requires c.SumdIs? || c.BspIs? || c.GpuClockIs? || c.MifClockIs? || c.IntClockIs?
    ensures Narrows(f, c, r)
  {
  }

  lemma SetOutcomeFieldNarrows(f: RunListFilter, c: Clause, r: Run)
    requires c.AcceleratorIs? || c.PromptIs? || c.ExitStatusIs? || c.CorrectnessIs?
    ensures Narrows(f, c, r)
  {
  }

  lemma SetFieldNarrows(f: RunListFilter, c: Clause, r: Run)
    ensures Narrows(f, c, r)
  {
    if c.PlatformIs? || c.DeviceClassIs? || c.DeviceSerialIs? || c.ModelAssetIs? {
      SetDeviceFieldNarrows(f, c, r);
    } else if c.CommitIs? || c.BranchIs? || c.DirtyIs? {
      SetBuildFieldNarrows(f, c, r);
    } else if c.SumdIs? || c.BspIs? || c.GpuClockIs? || c.MifClockIs? || c.IntClockIs? {
      SetLabFieldNarrows(f, c, r);
    } else {
      SetOutcomeFieldNarrows(f, c, r);
    }
  }

  /** Setting one field narrows the whole listing, whatever the page size and
      whatever else is asked for, to the runs with that value in its column. */
  lemma EachFieldNarrows(table: seq<Run>, f: RunListFilter, c: Clause, limit: nat, r: Run)
    requires IsTable(table) && limit > 0
    ensures IsListed(table, With(f, c), limit, r) <==> IsListed(table, Without(f, c), limit, r) && HasValue(r, c)
  {
    ListedMeans(table, With(f, c), limit, r);
    ListedMeans(table, Without(f, c), limit, r);
    SetFieldNarrows(f, c, r);
  }

  /** Without a filter every run is listed. */
  lemma UnfilteredListsAll(table: seq<Run>, limit: nat, r: Run)
    requires IsTable(table) && limit > 0
    ensures IsListed(table, NO_FILTER, limit, r) <==> r in table
  {
    ListedMeans(table, NO_FILTER, limit, r);
  }

  const NO_FILTER := RunListFilter(None, None, None, None, None, None, None, None, None, None, None, None, None, None,
                                   None, None)
}
