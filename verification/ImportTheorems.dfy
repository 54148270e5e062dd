/** The importer is idempotent and can be resumed. */
module ImportTheorems {
  import opened Prelude
  import opened Domain
  import opened LogParser
  import opened ImportPlan

  // ----- What a run adds ----------------------------------------------------

  predicate IsLive(m: Manifest, records: seq<Record>, i: nat)
    requires i < |records|
  {
    records[i].tag !in m.skipTags
  }

  /** The keys that the first `n` records insert. */
  function NewKeys(m: Manifest, records: seq<Record>, imported: Keys, n: nat): (keys: Keys)
    requires n <= |records|
    ensures forall k :: k in keys <==>
      exists i :: 0 <= i < n && IsLive(m, records, i) && KeyAt(records, i) == k && k !in imported
  {
    set i | 0 <= i < n && IsLive(m, records, i) && KeyAt(records, i) !in imported :: KeyAt(records, i)
  }

  lemma {:induction false} ImportedSnoc(rows: seq<Content>, c: Content, log: Sha256Hex)
    ensures ImportedRepetitions(rows + [c], log) ==
      ImportedRepetitions(rows, log) + if c.logSha256 == Some(log) && c.tag.Some? then {(c.tag.value, c.repetition)} else {}
  {
    var a, b := ImportedRepetitions(rows + [c], log), ImportedRepetitions(rows, log);
    assert forall x :: x in rows + [c] <==> x in rows || x == c;
    forall k | k in a && k !in b ensures c.logSha256 == Some(log) && c.tag == Some(k.0) && c.repetition == k.1 {
      assert (k.0, k.1) in a && (k.0, k.1) !in b;
    }
    forall k | k in b ensures k in a {
      assert (k.0, k.1) in b;
    }
  }

  /** Rows are only ever appended, one per record inserted. */
  lemma {:induction false} RunAppends(v: View, m: Manifest, records: seq<Record>, imported: Keys, n: nat)
    requires n <= |records|
    ensures
      var p := RunTo(v, m, records, imported, n);
      && v.rows <= p.view.rows && v.models <= p.view.models
      && |p.view.rows| == |v.rows| + p.inserted
      && (p.error.None? ==> p.inserted + p.skippedExisting + p.skippedTags == n)
  {
    if n > 0 {
      RunAppends(v, m, records, imported, n - 1);
    }
  }

  lemma NewKeysNext(m: Manifest, records: seq<Record>, imported: Keys, n: nat)
    requires n < |records|
    ensures NewKeys(m, records, imported, n + 1) == NewKeys(m, records, imported, n) +
      if IsLive(m, records, n) && KeyAt(records, n) !in imported then {KeyAt(records, n)} else {}
  {
  }

  /** One more record imports its key, if it is inserted. */
  lemma AdvanceImports(p: ImportState, m: Manifest, records: seq<Record>, i: nat, imported: Keys)
    requires i < |records| && Advance(p, m, records, i, imported).error.None?
    ensures Start(Advance(p, m, records, i, imported).view, m) == Start(p.view, m) +
      if IsLive(m, records, i) && KeyAt(records, i) !in imported then {KeyAt(records, i)} else {}
  {
    var step := StepAt(m, records, i, imported, p.view.models);
    if step.Insert? {
      ImportedSnoc(p.view.rows, step.content, m.logSha256);
    }
  }

  /** Every live record the run has passed is imported, and nothing else of this
      log that was not before. */
  lemma {:induction false} RunImports(v: View, m: Manifest, records: seq<Record>, imported: Keys, n: nat)
    requires n <= |records| && imported == Start(v, m)
    requires RunTo(v, m, records, imported, n).error.None?
    ensures Start(RunTo(v, m, records, imported, n).view, m) == imported + NewKeys(m, records, imported, n)
  {
    if n > 0 {
      var before := RunTo(v, m, records, imported, n - 1);
      assert RunTo(v, m, records, imported, n) == Advance(before, m, records, n - 1, imported);
      RunImports(v, m, records, imported, n - 1);
      AdvanceImports(before, m, records, n - 1, imported);
      NewKeysNext(m, records, imported, n - 1);
    }
  }

  lemma {:induction false} PassedRecordsArePositive(v: View, m: Manifest, records: seq<Record>, imported: Keys, n: nat, i: nat)
    requires i < n <= |records| && RunTo(v, m, records, imported, n).error.None? && IsLive(m, records, i)
    ensures records[i].rep >= 1
  {
    if i < n - 1 {
      PassedRecordsArePositive(v, m, records, imported, n - 1, i);
    }
  }

  lemma CompletedRunsAddUp(v: View, m: Manifest, records: seq<Record>)
    requires Import(v, m, records).error.None?
    ensures
      var p := Import(v, m, records);
      && |records| == p.inserted + p.skippedExisting + p.skippedTags
      && |p.view.rows| == |v.rows| + p.inserted
      && v.rows <= p.view.rows
  {
    RunAppends(v, m, records, Start(v, m), |records|);
  }

  // ----- Running again ------------------------------------------------------

  /** Every live record before `n` is in `imported`. */
  ghost predicate Covers(imported: Keys, m: Manifest, records: seq<Record>, n: nat)
    requires n <= |records|
  {
    forall i :: 0 <= i < n && IsLive(m, records, i) ==> records[i].rep >= 1 && KeyAt(records, i) in imported
  }

  lemma {:induction false} CoveredRecordsDoNothing(v: View, m: Manifest, records: seq<Record>, imported: Keys, n: nat)
    requires n <= |records| && Covers(imported, m, records, n)
    ensures
      var p := RunTo(v, m, records, imported, n);
      p.view == v && p.error.None? && p.inserted == 0
  {
    if n > 0 {
      assert IsLive(m, records, n - 1) ==> KeyAt(records, n - 1) in imported;
      CoveredRecordsDoNothing(v, m, records, imported, n - 1);
    }
  }

  lemma RunCovers(v: View, m: Manifest, records: seq<Record>, n: nat)
    requires n <= |records| && Interrupted(v, m, records, n).error.None?
    ensures Covers(Start(Interrupted(v, m, records, n).view, m), m, records, n)
  {
    RunImports(v, m, records, Start(v, m), n);
    forall i | 0 <= i < n && IsLive(m, records, i)
      ensures records[i].rep >= 1 && KeyAt(records, i) in Start(Interrupted(v, m, records, n).view, m)
    {
      PassedRecordsArePositive(v, m, records, Start(v, m), n, i);
    }
  }

  /** Importing a fully imported log again inserts nothing and changes nothing. */
  lemma ImportIsIdempotent(v: View, m: Manifest, records: seq<Record>)
    requires Import(v, m, records).error.None?
    ensures
      var first := Import(v, m, records);
      var second := Import(first.view, m, records);
      && second.view == first.view && second.error.None? && second.inserted == 0
      && second.skippedExisting + second.skippedTags == |records|
  {
    var first := Import(v, m, records);
    RunCovers(v, m, records, |records|);
    CoveredRecordsDoNothing(first.view, m, records, Start(first.view, m), |records|);
    CompletedRunsAddUp(first.view, m, records);
  }

  // ----- Resuming -----------------------------------------------------------

  /** No record from `n` on repeats a key that a record before `n` inserted. */
  ghost predicate NoneStraddles(m: Manifest, records: seq<Record>, imported: Keys, n: nat)
    requires n <= |records|
  {
    forall j :: n <= j < |records| && IsLive(m, records, j) ==> KeyAt(records, j) !in NewKeys(m, records, imported, n)
  }

  /** With the same decisions to make, two runs from one state go the same way. */
  lemma {:induction false} SameFromHere(v: View, w: View, m: Manifest, records: seq<Record>, a: Keys, b: Keys, n: nat, k: nat)
    requires n <= k <= |records|
    requires RunTo(v, m, records, a, n).view == RunTo(w, m, records, b, n).view
    requires RunTo(v, m, records, a, n).error == RunTo(w, m, records, b, n).error
    requires forall j :: n <= j < |records| && IsLive(m, records, j) ==> (KeyAt(records, j) in a <==> KeyAt(records, j) in b)
    ensures RunTo(v, m, records, a, k).view == RunTo(w, m, records, b, k).view
    ensures RunTo(v, m, records, a, k).error == RunTo(w, m, records, b, k).error
    decreases k
  {
    if k > n {
      SameFromHere(v, w, m, records, a, b, n, k - 1);
      assert IsLive(m, records, k - 1) ==> (KeyAt(records, k - 1) in a <==> KeyAt(records, k - 1) in b);
    }
  }

  lemma {:induction false} ErrorsStay(v: View, m: Manifest, records: seq<Record>, imported: Keys, n: nat, k: nat)
    requires n <= k <= |records| && RunTo(v, m, records, imported, n).error.Some?
    ensures RunTo(v, m, records, imported, k) == RunTo(v, m, records, imported, n)
    decreases k
  {
    if k > n {
      ErrorsStay(v, m, records, imported, n, k - 1);
    }
  }

  /** Killed before record `n` and run again: the same rows and the same outcome
      as one uninterrupted run. */
  lemma ResumeAfterKill(v: View, m: Manifest, records: seq<Record>, n: nat)
    requires n <= |records| && Interrupted(v, m, records, n).error.None?
    requires NoneStraddles(m, records, Start(v, m), n)
    ensures
      var resumed := Import(Interrupted(v, m, records, n).view, m, records);
      resumed.view == Import(v, m, records).view && resumed.error == Import(v, m, records).error
  {
    var imported := Start(v, m);
    var killed := Interrupted(v, m, records, n);
    RunImports(v, m, records, imported, n);
    RunCovers(v, m, records, n);
    CoveredRecordsDoNothing(killed.view, m, records, Start(killed.view, m), n);
    SameFromHere(v, killed.view, m, records, imported, Start(killed.view, m), n, |records|);
  }

  /** What a run killed inside record `n` leaves, if it had already registered the
      record's model. */
  function KilledInside(v: View, m: Manifest, records: seq<Record>, n: nat): View
    requires n < |records|
  {
    var w := Interrupted(v, m, records, n).view;
    match StepAt(m, records, n, Start(v, m), w.models)
    case Insert(_, models) => w.(models := models)
    case Abort(_, models) => w.(models := models)
    case _ => w
  }

  /** Handling a record again from there comes to the same. */
  lemma StepRepeats(m: Manifest, records: seq<Record>, n: nat, a: Keys, b: Keys, models: set<Sha256Hex>)
    requires n < |records| && (IsLive(m, records, n) ==> (KeyAt(records, n) in a <==> KeyAt(records, n) in b))
    ensures
      var first := StepAt(m, records, n, a, models);
      StepAt(m, records, n, b, if first.Insert? || first.Abort? then first.models else models) == first
  {
  }

  /** The same for a run killed inside record `n`. */
  lemma ResumeAfterKillInside(v: View, m: Manifest, records: seq<Record>, n: nat)
    requires n < |records| && Interrupted(v, m, records, n).error.None?
    requires NoneStraddles(m, records, Start(v, m), n)
    ensures
      var resumed := Import(KilledInside(v, m, records, n), m, records);
      resumed.view == Import(v, m, records).view && resumed.error == Import(v, m, records).error
  {
    var a, w, left := Start(v, m), Interrupted(v, m, records, n).view, KilledInside(v, m, records, n);
    var b := Start(w, m);
    assert b == Start(left, m);
    RunImports(v, m, records, a, n);
    RunCovers(v, m, records, n);
    CoveredRecordsDoNothing(left, m, records, b, n);
    StepRepeats(m, records, n, a, b, w.models);
    SameFromHere(v, left, m, records, a, b, n + 1, |records|);
  }

  function Resumed(v: View, m: Manifest, records: seq<Record>, n: nat): ImportState
    requires n <= |records|
  {
    Import(Interrupted(v, m, records, n).view, m, records)
  }

  lemma {:induction false} NoErrorBefore(v: View, m: Manifest, records: seq<Record>, imported: Keys, n: nat, k: nat)
    requires n <= k <= |records| && RunTo(v, m, records, imported, k).error.None?
    ensures RunTo(v, m, records, imported, n).error.None?
    decreases k
  {
    if k > n {
      NoErrorBefore(v, m, records, imported, n, k - 1);
    }
  }

  /** A run with more keys to skip never inserts more. */
  lemma {:induction false} NeverMoreRows(v: View, w: View, m: Manifest, records: seq<Record>, a: Keys, b: Keys, n: nat, k: nat)
    requires n <= k <= |records| && a <= b && RunTo(v, m, records, a, k).error.None?
    ensures RunTo(w, m, records, b, k).inserted - RunTo(w, m, records, b, n).inserted
      <= RunTo(v, m, records, a, k).inserted - RunTo(v, m, records, a, n).inserted
    decreases k
  {
    if k > n {
      NeverMoreRows(v, w, m, records, a, b, n, k - 1);
    }
  }

  /** The record at `j` is inserted with the keys `a` and not with the keys `b`. */
  lemma OneRowLess(v: View, w: View, m: Manifest, records: seq<Record>, a: Keys, b: Keys, j: nat)
    requires j < |records| && RunTo(v, m, records, a, j + 1).error.None?
    requires IsLive(m, records, j) && KeyAt(records, j) !in a && KeyAt(records, j) in b
    ensures RunTo(v, m, records, a, j + 1).inserted == RunTo(v, m, records, a, j).inserted + 1
    ensures RunTo(w, m, records, b, j + 1).inserted == RunTo(w, m, records, b, j).inserted
  {
    var p := RunTo(v, m, records, a, j);
    assert p.error.None?;
    assert StepAt(m, records, j, a, p.view.models).Insert?;
  }

  /** What the second run starts from. */
  lemma SecondRunStarts(v: View, m: Manifest, records: seq<Record>, n: nat)
    requires n <= |records| && Interrupted(v, m, records, n).error.None?
    ensures
      var w := Interrupted(v, m, records, n).view;
      && Start(w, m) == Start(v, m) + NewKeys(m, records, Start(v, m), n)
      && RunTo(w, m, records, Start(w, m), n).inserted == 0
      && |w.rows| == |v.rows| + Interrupted(v, m, records, n).inserted
  {
    var w := Interrupted(v, m, records, n).view;
    RunImports(v, m, records, Start(v, m), n);
    RunCovers(v, m, records, n);
    CoveredRecordsDoNothing(w, m, records, Start(w, m), n);
    RunAppends(v, m, records, Start(v, m), n);
  }

  lemma FewerInserted(v: View, w: View, m: Manifest, records: seq<Record>, a: Keys, b: Keys, n: nat, j: nat)
    requires n <= j < |records| && a <= b && RunTo(v, m, records, a, |records|).error.None?
    requires IsLive(m, records, j) && KeyAt(records, j) !in a && KeyAt(records, j) in b
    ensures RunTo(w, m, records, b, |records|).inserted - RunTo(w, m, records, b, n).inserted
      < RunTo(v, m, records, a, |records|).inserted - RunTo(v, m, records, a, n).inserted
  {
    NoErrorBefore(v, m, records, a, j + 1, |records|);
    NoErrorBefore(v, m, records, a, j, j + 1);
    NeverMoreRows(v, w, m, records, a, b, n, j);
    OneRowLess(v, w, m, records, a, b, j);
    NeverMoreRows(v, w, m, records, a, b, j + 1, |records|);
  }

  lemma RowsCount(v: View, m: Manifest, records: seq<Record>)
    ensures |Import(v, m, records).view.rows| == |v.rows| + RunTo(v, m, records, Start(v, m), |records|).inserted
  {
    RunAppends(v, m, records, Start(v, m), |records|);
  }

  /** A record whose key is skipped on the second run leaves a row missing. */
  lemma StraddlingLosesARow(v: View, m: Manifest, records: seq<Record>, n: nat, j: nat)
    requires n <= j < |records| && Import(v, m, records).error.None?
    requires IsLive(m, records, j) && KeyAt(records, j) in NewKeys(m, records, Start(v, m), n)
    ensures |Resumed(v, m, records, n).view.rows| < |Import(v, m, records).view.rows|
  {
    var w := Interrupted(v, m, records, n).view;
    NoErrorBefore(v, m, records, Start(v, m), n, |records|);
    SecondRunStarts(v, m, records, n);
    FewerInserted(v, w, m, records, Start(v, m), Start(w, m), n, j);
    RowsCount(v, m, records);
    RowsCount(w, m, records);
  }

  /** For an import that can complete: killing it before record `n` and running it
      again gives what one run gives, if and only if no record from `n` on
      repeats a key that was inserted before `n`. */
  lemma ResumableIff(v: View, m: Manifest, records: seq<Record>, n: nat)
    requires n <= |records| && Import(v, m, records).error.None?
    ensures Resumed(v, m, records, n).view == Import(v, m, records).view <==> NoneStraddles(m, records, Start(v, m), n)
  {
    NoErrorBefore(v, m, records, Start(v, m), n, |records|);
    if NoneStraddles(m, records, Start(v, m), n) {
      ResumeAfterKill(v, m, records, n);
    } else {
      var j: nat :| n <= j < |records| && IsLive(m, records, j)
        && KeyAt(records, j) in NewKeys(m, records, Start(v, m), n);
      StraddlingLosesARow(v, m, records, n, j);
    }
  }

  predicate IsNew(m: Manifest, records: seq<Record>, imported: Keys, i: nat)
    requires i < |records|
  {
    IsLive(m, records, i) && KeyAt(records, i) !in imported
  }

  /** No two records that are to be inserted share `(tag, rep)`. */
  ghost predicate KeysAreDistinct(m: Manifest, records: seq<Record>, imported: Keys) {
    forall i, j :: 0 <= i < j < |records| && IsNew(m, records, imported, i) && IsLive(m, records, j) ==>
      KeyAt(records, i) != KeyAt(records, j)
  }

  lemma DistinctIffNoneStraddles(m: Manifest, records: seq<Record>, imported: Keys)
    ensures KeysAreDistinct(m, records, imported) <==>
      forall n :: 0 <= n <= |records| ==> NoneStraddles(m, records, imported, n)
  {
    if forall n :: 0 <= n <= |records| ==> NoneStraddles(m, records, imported, n) {
      forall i, j | 0 <= i < j < |records| && IsNew(m, records, imported, i) && IsLive(m, records, j)
        ensures KeyAt(records, i) != KeyAt(records, j)
      {
        assert NoneStraddles(m, records, imported, j);
        assert KeyAt(records, i) in NewKeys(m, records, imported, j);
      }
    }
  }

  /** An import that can complete may be killed before any record and run again
      without a trace, if and only if the keys it inserts are distinct. */
  lemma ResumableEverywhereIff(v: View, m: Manifest, records: seq<Record>)
    requires Import(v, m, records).error.None?
    ensures KeysAreDistinct(m, records, Start(v, m)) <==>
      forall n :: 0 <= n <= |records| ==> Resumed(v, m, records, n).view == Import(v, m, records).view
  {
    DistinctIffNoneStraddles(m, records, Start(v, m));
    forall n | 0 <= n <= |records|
      ensures Resumed(v, m, records, n).view == Import(v, m, records).view <==> NoneStraddles(m, records, Start(v, m), n)
    {
      ResumableIff(v, m, records, n);
    }
  }

  // ----- One row per key ----------------------------------------------------

  predicate SameKey(a: Content, b: Content) {
    && a.logSha256.Some? && a.tag.Some?
    && a.logSha256 == b.logSha256 && a.tag == b.tag && a.repetition == b.repetition
  }

  /** At most one row per (log, tag, repetition). */
  ghost predicate OneRowPerKey(rows: seq<Content>) {
    forall i, j :: 0 <= i < j < |rows| ==> !SameKey(rows[i], rows[j])
  }

  lemma OneRowSnoc(rows: seq<Content>, c: Content, log: Sha256Hex)
    requires c.logSha256 == Some(log) && c.tag.Some?
    ensures OneRowPerKey(rows + [c]) <==>
      OneRowPerKey(rows) && (c.tag.value, c.repetition) !in ImportedRepetitions(rows, log)
  {
    var all := rows + [c];
    if OneRowPerKey(all) {
      forall i, j | 0 <= i < j < |rows| ensures !SameKey(rows[i], rows[j]) {
        assert !SameKey(all[i], all[j]);
      }
      forall i | 0 <= i < |rows| ensures !SameKey(rows[i], c) {
        assert !SameKey(all[i], all[|rows|]);
      }
    }
    if (c.tag.value, c.repetition) !in ImportedRepetitions(rows, log) {
      assert forall i :: 0 <= i < |rows| ==> rows[i] in rows;
      assert forall i :: 0 <= i < |rows| ==> !SameKey(rows[i], c);
    }
  }

  /** No two of the first `n` records that are to be inserted share a key. */
  ghost predicate DistinctUpTo(m: Manifest, records: seq<Record>, imported: Keys, n: nat)
    requires n <= |records|
  {
    forall i, j :: 0 <= i < j < n && IsNew(m, records, imported, i) && IsLive(m, records, j) ==>
      KeyAt(records, i) != KeyAt(records, j)
  }

  lemma DistinctNext(m: Manifest, records: seq<Record>, imported: Keys, n: nat)
    requires n < |records|
    ensures DistinctUpTo(m, records, imported, n + 1) <==>
      && DistinctUpTo(m, records, imported, n)
      && (IsLive(m, records, n) ==> KeyAt(records, n) !in NewKeys(m, records, imported, n))
  {
    if DistinctUpTo(m, records, imported, n + 1) && IsLive(m, records, n) {
      forall i | 0 <= i < n && IsNew(m, records, imported, i) ensures KeyAt(records, i) != KeyAt(records, n) {
      }
    }
    if IsLive(m, records, n) && KeyAt(records, n) !in NewKeys(m, records, imported, n) {
      forall i | 0 <= i < n && IsNew(m, records, imported, i) ensures KeyAt(records, i) != KeyAt(records, n) {
        assert KeyAt(records, i) in NewKeys(m, records, imported, n);
      }
    }
  }

  /** One more record repeats a key if and only if a record before it inserted it. */
  lemma AdvanceKeepsOneRow(p: ImportState, m: Manifest, records: seq<Record>, i: nat, imported: Keys)
    requires i < |records| && p.error.None? && Advance(p, m, records, i, imported).error.None?
    requires Start(p.view, m) == imported + NewKeys(m, records, imported, i)
    ensures OneRowPerKey(Advance(p, m, records, i, imported).view.rows) <==>
      && OneRowPerKey(p.view.rows)
      && (IsLive(m, records, i) ==> KeyAt(records, i) !in NewKeys(m, records, imported, i))
  {
    var step := StepAt(m, records, i, imported, p.view.models);
    if step.Insert? {
      OneRowSnoc(p.view.rows, step.content, m.logSha256);
    }
  }

  lemma {:induction false} RunKeepsOneRow(v: View, m: Manifest, records: seq<Record>, n: nat)
    requires n <= |records| && OneRowPerKey(v.rows) && Interrupted(v, m, records, n).error.None?
    ensures OneRowPerKey(Interrupted(v, m, records, n).view.rows) <==> DistinctUpTo(m, records, Start(v, m), n)
  {
    if n > 0 {
      var imported := Start(v, m);
      var p := RunTo(v, m, records, imported, n - 1);
      RunKeepsOneRow(v, m, records, n - 1);
      DistinctNext(m, records, imported, n - 1);
      RunImports(v, m, records, imported, n - 1);
      AdvanceKeepsOneRow(p, m, records, n - 1, imported);
    }
  }

  /** What one run leaves: from a table with at most one row per key, a completed
      import leaves one with at most one row per key, if and only if the keys it
      inserts are distinct. */
  lemma OneRowPerKeyIff(v: View, m: Manifest, records: seq<Record>)
    requires OneRowPerKey(v.rows) && Import(v, m, records).error.None?
    ensures OneRowPerKey(Import(v, m, records).view.rows) <==> KeysAreDistinct(m, records, Start(v, m))
  {
    RunKeepsOneRow(v, m, records, |records|);
  }

  // ----- Running again after an error ---------------------------------------

  lemma {:induction false} FirstError(v: View, m: Manifest, records: seq<Record>, imported: Keys, n: nat) returns (e: nat)
    requires n <= |records| && RunTo(v, m, records, imported, n).error.Some?
    ensures e < n && RunTo(v, m, records, imported, e).error.None? && RunTo(v, m, records, imported, e + 1).error.Some?
  {
    if RunTo(v, m, records, imported, n - 1).error.Some? {
      e := FirstError(v, m, records, imported, n - 1);
    } else {
      e := n - 1;
    }
  }

  /** A run that stopped with an error leaves a state from which running again
      stops with the same error and adds nothing. */
  lemma ErrorsAreStable(v: View, m: Manifest, records: seq<Record>)
    requires KeysAreDistinct(m, records, Start(v, m)) && Import(v, m, records).error.Some?
    ensures
      var failed := Import(v, m, records);
      var again := Import(failed.view, m, records);
      again.view == failed.view && again.error == failed.error
  {
    var a, all := Start(v, m), |records|;
    var failed := Import(v, m, records);
    var e := FirstError(v, m, records, a, all);
    ErrorsStay(v, m, records, a, e + 1, all);
    var before := RunTo(v, m, records, a, e);
    var w := failed.view;
    var b := Start(w, m);
    assert w.rows == before.view.rows;
    RunImports(v, m, records, a, e);
    RunCovers(v, m, records, e);
    assert b == Start(before.view, m);
    CoveredRecordsDoNothing(w, m, records, b, e);
    DistinctIffNoneStraddles(m, records, a);
    assert NoneStraddles(m, records, a, e);
    StepRepeats(m, records, e, a, b, before.view.models);
    ErrorsStay(w, m, records, b, e + 1, all);
  }

  // ----- What an imported row says ------------------------------------------

  /** A failed repetition without a time of its own gets the end of the nearest
      observed repetition before it. */
  lemma {:induction false} LastSeenIsNearest(records: seq<Record>, i: nat)
    requires i <= |records|
    ensures LastSeen(records, i).None? <==> forall j :: 0 <= j < i ==> records[j].observer.None?
    ensures LastSeen(records, i).Some? ==> exists j :: 0 <= j < i && IsLastObserved(records, i, j, LastSeen(records, i).value)
  {
    if i > 0 {
      LastSeenIsNearest(records, i - 1);
      if records[i - 1].observer.Some? {
        assert IsLastObserved(records, i, i - 1, LastSeen(records, i).value);
      } else if LastSeen(records, i - 1).Some? {
        var j :| 0 <= j < i - 1 && IsLastObserved(records, i - 1, j, LastSeen(records, i - 1).value);
        assert IsLastObserved(records, i, j, LastSeen(records, i).value);
      }
    }
  }

  predicate IsLastObserved(records: seq<Record>, i: nat, j: nat, ms: int)
    requires j < i <= |records|
  {
    && records[j].observer.Some? && records[j].observer.value.inferenceEndMs == ms
    && forall k :: j < k < i ==> records[k].observer.None?
  }
}
