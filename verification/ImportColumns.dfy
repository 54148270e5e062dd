/** What importing a record means, column by column and error by error: the row
    that it adds, and when it adds one. */
module ImportColumns {
  import opened Prelude
  import opened Domain
  import opened LogParser
  import opened ImportPlan
  import opened ImportTheorems

  // ----- The row of a record ------------------------------------------------

  /** The failure listed at `k` is the first for the record's tag and number. */
  ghost predicate IsFirstFailure(failures: seq<FailureSpec>, r: Record, k: nat) {
    && k < |failures| && failures[k].tag == r.tag && failures[k].rep == r.rep
    && forall j :: 0 <= j < k ==> failures[j].tag != r.tag || failures[j].rep != r.rep
  }

  /** The last observed repetition before `i` ended at `ms`. */
  ghost predicate EndsLastBefore(records: seq<Record>, i: nat, ms: int)
    requires i <= |records|
  {
    exists j :: 0 <= j < i && IsLastObserved(records, i, j, ms)
  }

  /** What every imported row says of its log, its record and its model. */
  ghost predicate NamesItsRecord(c: Content, m: Manifest, r: Record) {
    && c.logSha256 == Some(m.logSha256) && c.tag == Some(r.tag) && c.repetition == r.rep - 1
    && c.lineNumber == r.lineNumber
    && r.tag in m.models && c.modelSha256 == m.models[r.tag].sha256
    && c.stdout == (match r.rawLine case Some(line) => Some(line + "\n") case None => None)
  }

  ghost predicate SaysWhatWasObserved(c: Content, m: Manifest, o: Observer) {
    && c.startedAtMs == o.modelLoadStartMs && c.finishedAtMs == Some(o.inferenceEndMs) && !c.startEstimated
    && m.validEpoch(o.modelLoadStartMs) && m.validEpoch(o.inferenceEndMs)
    && c.exitStatus == ExitStatus.Succeeded && c.errorSummary == None
    && c.inputTokens == o.promptTokens && c.outputTokens == o.generatedTokens
    && c.prefill == o.prefillTokenPerSec
    && c.decode == if o.generatedTokens > 0 then o.decodeTokenPerSec else None
  }

  /** A failure without a time of its own starts where the last observed repetition
      before it ended. */
  ghost predicate SaysHowItFailed(c: Content, m: Manifest, records: seq<Record>, i: nat, f: FailureSpec)
    requires i < |records|
  {
    && Some(c.exitStatus) == f.exitStatus && c.errorSummary == Some(f.errorSummary)
    && (f.startedAtMs.Some? ==> c.startedAtMs == f.startedAtMs.value && !c.startEstimated)
    && (f.startedAtMs.None? ==>
          EndsLastBefore(records, i, c.startedAtMs) && m.validEpoch(c.startedAtMs) && c.startEstimated)
    && c.finishedAtMs == None
    && c.inputTokens == (match m.promptTokenCount case Some(n) => n case None => 0)
    && c.outputTokens == 0 && c.prefill == 0.0 && c.decode == None
  }

  /** `c` is the row of record `i`. */
  ghost predicate IsRowOf(c: Content, m: Manifest, records: seq<Record>, i: nat)
    requires i < |records|
  {
    && NamesItsRecord(c, m, records[i])
    && match records[i].observer
       case Some(o) => SaysWhatWasObserved(c, m, o)
       case None =>
         exists k :: 0 <= k < |m.failures| && IsFirstFailure(m.failures, records[i], k)
           && SaysHowItFailed(c, m, records, i, m.failures[k])
  }

  lemma {:induction false} FoundFailureIsFirst(failures: seq<FailureSpec>, r: Record)
    ensures
      match FindFailure(failures, r.tag, r.rep)
      case Some(f) => exists k :: 0 <= k < |failures| && IsFirstFailure(failures, r, k) && failures[k] == f
      case None => forall k :: 0 <= k < |failures| ==> failures[k].tag != r.tag || failures[k].rep != r.rep
  {
    if failures != [] && (failures[0].tag != r.tag || failures[0].rep != r.rep) {
      FoundFailureIsFirst(failures[1..], r);
      if FindFailure(failures, r.tag, r.rep).Some? {
        var k :| 0 <= k < |failures| - 1 && IsFirstFailure(failures[1..], r, k)
          && failures[1..][k] == FindFailure(failures, r.tag, r.rep).value;
        assert forall j :: 0 < j <= k ==> failures[j] == failures[1..][j - 1];
        assert IsFirstFailure(failures, r, k + 1);
      } else {
        assert forall j :: 0 < j < |failures| ==> failures[j] == failures[1..][j - 1];
      }
    }
    assert failures != [] && failures[0].tag == r.tag && failures[0].rep == r.rep ==> IsFirstFailure(failures, r, 0);
  }

  lemma OneFirstFailure(failures: seq<FailureSpec>, r: Record, j: nat, k: nat)
    requires IsFirstFailure(failures, r, j) && IsFirstFailure(failures, r, k)
    ensures j == k
  {
  }

  lemma OneLastObserved(records: seq<Record>, i: nat, ms: int)
    requires i <= |records|
    ensures EndsLastBefore(records, i, ms) <==> LastSeen(records, i) == Some(ms)
  {
    LastSeenIsNearest(records, i);
    if EndsLastBefore(records, i, ms) {
      var j :| 0 <= j < i && IsLastObserved(records, i, j, ms);
      var k :| 0 <= k < i && IsLastObserved(records, i, k, LastSeen(records, i).value);
      assert j == k;
    }
  }

  lemma FailedRowIs(c: Content, m: Manifest, records: seq<Record>, i: nat)
    requires i < |records| && records[i].observer.None? && records[i].tag in m.models
    ensures FailedContent(m, records, i, m.models[records[i].tag]) == Ok(c) <==> IsRowOf(c, m, records, i)
  {
    var r := records[i];
    FoundFailureIsFirst(m.failures, r);
    OneLastObserved(records, i, c.startedAtMs);
    if FindFailure(m.failures, r.tag, r.rep).Some? {
      var k :| 0 <= k < |m.failures| && IsFirstFailure(m.failures, r, k)
        && m.failures[k] == FindFailure(m.failures, r.tag, r.rep).value;
      assert IsRowOf(c, m, records, i) <==>
        NamesItsRecord(c, m, r) && SaysHowItFailed(c, m, records, i, m.failures[k]);
    }
  }

  /** The row of a record: what it can be, and that it can be nothing else. */
  lemma RowIs(c: Content, m: Manifest, records: seq<Record>, i: nat)
    requires i < |records| && records[i].tag in m.models
    ensures ContentAt(m, records, i, m.models[records[i].tag]) == Ok(c) <==> IsRowOf(c, m, records, i)
  {
    if records[i].observer.None? {
      FailedRowIs(c, m, records, i);
    }
  }

  // ----- One record ---------------------------------------------------------

  /** The columns that the table refuses below zero. */
  predicate NoneNegative(c: Content) {
    c.inputTokens >= 0 && c.outputTokens >= 0 && c.prefill >= 0.0 && (c.decode.None? || c.decode.value >= 0.0)
  }

  /** The model is registered, or its file can be. */
  predicate ModelIsThere(m: Manifest, models: set<Sha256Hex>, spec: ModelSpec) {
    spec.sha256 in models
    || (spec.path in m.files && m.files[spec.path].sha256 == spec.sha256 && m.files[spec.path].sizeBytes > 0)
  }

  /** The record is inserted as `c`: it is not skipped, its number is positive and not
      imported yet, its model is there, and the table takes its row. */
  ghost predicate Inserts(m: Manifest, records: seq<Record>, i: nat, imported: Keys, models: set<Sha256Hex>,
                          c: Content)
    requires i < |records|
  {
    var r := records[i];
    && r.tag !in m.skipTags && r.rep >= 1 && (r.tag, r.rep - 1) !in imported
    && r.tag in m.models && ModelIsThere(m, models, m.models[r.tag])
    && IsRowOf(c, m, records, i) && NoneNegative(c)
  }

  ghost predicate IsListed(failures: seq<FailureSpec>, r: Record) {
    exists k :: 0 <= k < |failures| && failures[k].tag == r.tag && failures[k].rep == r.rep
  }

  /** Why the failure that is listed for an unobserved record makes no row. */
  ghost predicate FailureLacks(m: Manifest, records: seq<Record>, i: nat, error: ImportError)
    requires i < |records|
  {
    exists k :: 0 <= k < |m.failures| && IsFirstFailure(m.failures, records[i], k)
      && match error
         case BadExitStatus => m.failures[k].exitStatus.None?
         case NoTimestamp => m.failures[k].startedAtMs.None? && forall j :: 0 <= j < i ==> records[j].observer.None?
         case BadEpoch =>
           m.failures[k].startedAtMs.None? && exists ms :: EndsLastBefore(records, i, ms) && !m.validEpoch(ms)
         case _ => false
  }

  /** What is wrong with the row of a record whose model is there. */
  ghost predicate RowLacks(m: Manifest, records: seq<Record>, i: nat, error: ImportError)
    requires i < |records|
  {
    match error
    case NoFailureEntry => records[i].observer.None? && !IsListed(m.failures, records[i])
    case InsertRefused => exists c :: IsRowOf(c, m, records, i) && !NoneNegative(c)
    case _ =>
      match records[i].observer
      case Some(o) => error == BadEpoch && !(m.validEpoch(o.modelLoadStartMs) && m.validEpoch(o.inferenceEndMs))
      case None => FailureLacks(m, records, i, error)
  }

  /** Why record `i` ends the import, and which models are registered then. */
  ghost predicate EndsImport(m: Manifest, records: seq<Record>, i: nat, models: set<Sha256Hex>, error: ImportError,
                             after: set<Sha256Hex>)
    requires i < |records|
  {
    var r := records[i];
    && r.tag !in m.skipTags
    && if r.rep < 1 then error == RepetitionBelowOne && after == models
       else if r.tag !in m.models then error == NoModelEntry && after == models
       else
         var spec := m.models[r.tag];
         if ModelIsThere(m, models, spec) then
           after == models + {spec.sha256} && RowLacks(m, records, i, error)
         else if spec.path !in m.files then error == ModelNotReadable && after == models
         else if m.files[spec.path].sizeBytes == 0 && m.files[spec.path].sha256 !in models then
           error == RegistrationFailed && after == models
         else error == ModelHashMismatch && after == models + {m.files[spec.path].sha256}
  }

  lemma MissingRowIsExplained(m: Manifest, records: seq<Record>, i: nat)
    requires i < |records| && records[i].tag in m.models
    requires ContentAt(m, records, i, m.models[records[i].tag]).Err?
    ensures RowLacks(m, records, i, ContentAt(m, records, i, m.models[records[i].tag]).error)
  {
    var r := records[i];
    if r.observer.None? {
      FoundFailureIsFirst(m.failures, r);
      LastSeenIsNearest(records, i);
      if FindFailure(m.failures, r.tag, r.rep).Some? {
        var k :| 0 <= k < |m.failures| && IsFirstFailure(m.failures, r, k)
          && m.failures[k] == FindFailure(m.failures, r.tag, r.rep).value;
        if LastSeen(records, i).Some? {
          OneLastObserved(records, i, LastSeen(records, i).value);
        }
        assert FailureLacks(m, records, i, ContentAt(m, records, i, m.models[r.tag]).error);
      }
    }
  }

  /** What happens to a record, by its columns: whether it is skipped, known, inserted
      and as what, and why else the import ends. */
  lemma StepMeans(m: Manifest, records: seq<Record>, i: nat, imported: Keys, models: set<Sha256Hex>)
    requires i < |records|
    ensures
      var r := records[i];
      match StepAt(m, records, i, imported, models)
      case SkipTag => r.tag in m.skipTags
      case AlreadyPresent => r.tag !in m.skipTags && r.rep >= 1 && (r.tag, r.rep - 1) in imported
      case Insert(c, after) =>
        Inserts(m, records, i, imported, models, c) && after == models + {m.models[r.tag].sha256}
      case Abort(error, after) =>
        (r.rep < 1 || (r.tag, r.rep - 1) !in imported) && EndsImport(m, records, i, models, error, after)
  {
    var r := records[i];
    if r.tag in m.models {
      var content := ContentAt(m, records, i, m.models[r.tag]);
      if content.Ok? {
        RowIs(content.value, m, records, i);
      } else {
        MissingRowIsExplained(m, records, i);
      }
    }
  }

  // ----- A run --------------------------------------------------------------

  /** Some row of this log already has the record's tag and number. */
  ghost predicate IsImported(rows: seq<Content>, log: Sha256Hex, r: Record) {
    exists c :: c in rows && c.logSha256 == Some(log) && c.tag == Some(r.tag) && c.repetition == r.rep - 1
  }

  ghost predicate IsDue(v: View, m: Manifest, r: Record) {
    r.tag !in m.skipTags && !IsImported(v.rows, m.logSha256, r)
  }

  /** The records before `n` that are neither skipped nor imported when the run
      starts, in order. */
  ghost function Due(v: View, m: Manifest, records: seq<Record>, n: nat): (due: seq<nat>)
    requires n <= |records|
    ensures forall i :: i in due <==> 0 <= i < n && IsDue(v, m, records[i])
    ensures forall k :: 0 <= k < |due| ==> due[k] < n
    ensures forall j, k :: 0 <= j < k < |due| ==> due[j] < due[k]
  {
    if n == 0 then []
    else
      var before := Due(v, m, records, n - 1);
      assert forall j :: 0 <= j < |before| ==> before[j] in before;
      if IsDue(v, m, records[n - 1]) then before + [n - 1] else before
  }

  /** The run has added one row for each record that was due, in order, and its model. */
  ghost predicate HasAdded(before: View, after: View, m: Manifest, records: seq<Record>, due: seq<nat>)
    requires forall k :: 0 <= k < |due| ==> due[k] < |records|
  {
    && |after.rows| == |before.rows| + |due| && after.rows[..|before.rows|] == before.rows
    && (forall k :: 0 <= k < |due| ==>
          IsRowOf(after.rows[|before.rows| + k], m, records, due[k]) && NoneNegative(after.rows[|before.rows| + k]))
    && (forall sha :: sha in after.models <==> sha in before.models || IsModelOf(m, records, due, sha))
  }

  ghost predicate IsModelOf(m: Manifest, records: seq<Record>, due: seq<nat>, sha: Sha256Hex)
    requires forall k :: 0 <= k < |due| ==> due[k] < |records|
  {
    exists k :: 0 <= k < |due| && records[due[k]].tag in m.models && m.models[records[due[k]].tag].sha256 == sha
  }

  lemma AddsOne(v: View, before: View, m: Manifest, records: seq<Record>, due: seq<nat>, i: nat, c: Content)
    requires forall k :: 0 <= k < |due| ==> due[k] < |records|
    requires i < |records| && HasAdded(v, before, m, records, due)
    requires IsRowOf(c, m, records, i) && NoneNegative(c)
    ensures
      HasAdded(v, View(before.models + {m.models[records[i].tag].sha256}, before.rows + [c]), m, records, due + [i])
  {
    var sha := m.models[records[i].tag].sha256;
    var after := View(before.models + {sha}, before.rows + [c]);
    assert after.rows[..|v.rows|] == before.rows[..|v.rows|];
    assert (due + [i])[|due|] == i;
    forall s ensures s in after.models <==> s in v.models || IsModelOf(m, records, due + [i], s) {
      if IsModelOf(m, records, due, s) {
        var k :| 0 <= k < |due| && records[due[k]].tag in m.models && m.models[records[due[k]].tag].sha256 == s;
        assert (due + [i])[k] == due[k];
      }
    }
  }

  /** However far a run gets: what it has added. */
  lemma {:induction false} RunAdds(v: View, m: Manifest, records: seq<Record>, n: nat)
    requires n <= |records| && RunTo(v, m, records, Start(v, m), n).error.None?
    ensures HasAdded(v, RunTo(v, m, records, Start(v, m), n).view, m, records, Due(v, m, records, n))
  {
    if n > 0 {
      var imported, i := Start(v, m), n - 1;
      var before := RunTo(v, m, records, imported, i);
      RunAdds(v, m, records, i);
      StepMeans(m, records, i, imported, before.view.models);
      var r := records[i];
      assert (r.tag, r.rep - 1) in imported <==> IsImported(v.rows, m.logSha256, r);
      match StepAt(m, records, i, imported, before.view.models)
      case Insert(c, _) => AddsOne(v, before.view, m, records, Due(v, m, records, i), i, c);
      case _ =>
    }
  }

  function SkippedIn(m: Manifest, records: seq<Record>): nat {
    |Filter(records, (r: Record) => r.tag in m.skipTags)|
  }

  lemma SkippedSnoc(m: Manifest, records: seq<Record>, n: nat)
    requires n < |records|
    ensures SkippedIn(m, records[..n + 1]) == SkippedIn(m, records[..n]) + if records[n].tag in m.skipTags then 1 else 0
  {
    assert records[..n + 1] == records[..n] + [records[n]];
    FilterAppend(records[..n], records[n], (r: Record) => r.tag in m.skipTags);
  }

  lemma PassedRecordsAre(v: View, m: Manifest, records: seq<Record>, i: nat, models: set<Sha256Hex>)
    requires i < |records|
    ensures
      match StepAt(m, records, i, Start(v, m), models)
      case SkipTag => records[i].tag in m.skipTags && !IsDue(v, m, records[i])
      case AlreadyPresent => records[i].tag !in m.skipTags && !IsDue(v, m, records[i])
      case Insert(_, _) => records[i].tag !in m.skipTags && IsDue(v, m, records[i])
      case Abort(_, _) => true
  {
    var r := records[i];
    assert (r.tag, r.rep - 1) in Start(v, m) <==> IsImported(v.rows, m.logSha256, r);
  }

  /** The counters of a run: what was due, and what was skipped. */
  lemma {:induction false} RunCounts(v: View, m: Manifest, records: seq<Record>, n: nat)
    requires n <= |records| && RunTo(v, m, records, Start(v, m), n).error.None?
    ensures
      var p := RunTo(v, m, records, Start(v, m), n);
      p.inserted == |Due(v, m, records, n)| && p.skippedTags == SkippedIn(m, records[..n])
  {
    if n > 0 {
      var before := RunTo(v, m, records, Start(v, m), n - 1);
      RunCounts(v, m, records, n - 1);
      SkippedSnoc(m, records, n - 1);
      PassedRecordsAre(v, m, records, n - 1, before.view.models);
      assert RunTo(v, m, records, Start(v, m), n) == Advance(before, m, records, n - 1, Start(v, m));
    }
  }

  /** An import adds the rows of the records that were due, up to the one that ends
      it; if none does, of all. */
  lemma ImportAdds(v: View, m: Manifest, records: seq<Record>) returns (n: nat)
    ensures n <= |records|
    ensures
      var p := Import(v, m, records);
      match p.error
      case None => n == |records| && HasAdded(v, p.view, m, records, Due(v, m, records, n))
      case Some(error) =>
        && n < |records| && (records[n].rep < 1 || IsDue(v, m, records[n]))
        && exists models ::
             && HasAdded(v, View(models, p.view.rows), m, records, Due(v, m, records, n))
             && EndsImport(m, records, n, models, error, p.view.models)
  {
    var imported, all := Start(v, m), |records|;
    if Import(v, m, records).error.None? {
      n := all;
      RunAdds(v, m, records, n);
    } else {
      n := FirstError(v, m, records, imported, all);
      ErrorsStay(v, m, records, imported, n + 1, all);
      RunAdds(v, m, records, n);
      var before := RunTo(v, m, records, imported, n);
      StepMeans(m, records, n, imported, before.view.models);
      assert (records[n].tag, records[n].rep - 1) in imported <==> IsImported(v.rows, m.logSha256, records[n]);
      assert View(before.view.models, before.view.rows) == before.view;
    }
  }
}
