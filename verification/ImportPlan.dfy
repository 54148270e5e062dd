/** What importing one record of a log does.  Rows and model assets are compared
    without their generated ids. */
module ImportPlan {
  import opened Prelude
  import opened Domain
  import opened LogParser

  datatype ModelSpec = ModelSpec(path: string, sha256: Sha256Hex)

  /** `exitStatus` is missing when the manifest's text names no exit status. */
  datatype FailureSpec = FailureSpec(
    tag: string,
    rep: int,
    exitStatus: Option<ExitStatus>,
    startedAtMs: Option<int>,
    errorSummary: string)

  /** A readable model file. */
  datatype ModelFile = ModelFile(sha256: Sha256Hex, sizeBytes: nat)

  /** The manifest, with what the importer reads from outside: every readable
      model file, the hash of the log, and which epoch milliseconds are valid
      instants. */
  datatype Manifest = Manifest(
    logSha256: Sha256Hex,
    skipTags: set<string>,
    models: map<string, ModelSpec>,
    failures: seq<FailureSpec>,
    promptTokenCount: Option<int>,
    files: map<string, ModelFile>,
    validEpoch: int -> bool)

  /** A row of the `runs` table, up to ids. */
  datatype Content = Content(
    logSha256: Option<Sha256Hex>,
    tag: Option<string>,
    repetition: int,
    lineNumber: nat,
    modelSha256: Sha256Hex,
    startedAtMs: int,
    finishedAtMs: Option<int>,
    startEstimated: bool,
    exitStatus: ExitStatus,
    errorSummary: Option<string>,
    inputTokens: int,
    outputTokens: int,
    prefill: real,
    decode: Option<real>,
    stdout: Option<string>)

  datatype ImportError =
    | RepetitionBelowOne
    | NoModelEntry
    | ModelNotReadable
    | RegistrationFailed
    | ModelHashMismatch
    | NoFailureEntry
    | BadExitStatus
    | NoTimestamp
    | BadEpoch
    | InsertRefused

  /** The registered model hashes and the rows. */
  datatype View = View(models: set<Sha256Hex>, rows: seq<Content>)

  type Keys = set<(string, int)>

  /** Every `(tag, repetition)` already imported from this log. */
  function ImportedRepetitions(rows: seq<Content>, log: Sha256Hex): (keys: Keys)
    ensures forall t, r :: (t, r) in keys <==>
      exists c :: c in rows && c.logSha256 == Some(log) && c.tag == Some(t) && c.repetition == r
  {
    set c | c in rows && c.logSha256 == Some(log) && c.tag.Some? :: (c.tag.value, c.repetition)
  }

  function KeyAt(records: seq<Record>, i: nat): (string, int)
    requires i < |records|
  {
    (records[i].tag, records[i].rep - 1)
  }

  // ----- One record ---------------------------------------------------------

  datatype Resolution = Resolved(models: set<Sha256Hex>) | Unresolved(error: ImportError, models: set<Sha256Hex>)

  /** Finds the model by hash, or registers the file.  The registry refuses an
      empty file; one with another hash stays registered, but is an error. */
  function ResolveModel(m: Manifest, models: set<Sha256Hex>, spec: ModelSpec): Resolution {
    if spec.sha256 in models then Resolved(models)
    else if spec.path !in m.files then Unresolved(ModelNotReadable, models)
    else
      var file := m.files[spec.path];
      var registered := models + {file.sha256};
      if file.sizeBytes == 0 && file.sha256 !in models then Unresolved(RegistrationFailed, models)
      else if file.sha256 != spec.sha256 then Unresolved(ModelHashMismatch, registered)
      else Resolved(registered)
  }

  function FindFailure(failures: seq<FailureSpec>, tag: string, rep: int): Option<FailureSpec> {
    if failures == [] then None
    else if failures[0].tag == tag && failures[0].rep == rep then Some(failures[0])
    else FindFailure(failures[1..], tag, rep)
  }

  /** The end of the last observed repetition before `i`. */
  function LastSeen(records: seq<Record>, i: nat): Option<int>
    requires i <= |records|
  {
    if i == 0 then None
    else if records[i - 1].observer.Some? then Some(records[i - 1].observer.value.inferenceEndMs)
    else LastSeen(records, i - 1)
  }

  function Epoch(m: Manifest, ms: int): Result<int, ImportError> {
    if m.validEpoch(ms) then Ok(ms) else Err(BadEpoch)
  }

  function ObservedContent(m: Manifest, r: Record, o: Observer, spec: ModelSpec): Result<Content, ImportError> {
    var started :- Epoch(m, o.modelLoadStartMs);
    var finished :- Epoch(m, o.inferenceEndMs);
    Ok(Content(Some(m.logSha256), Some(r.tag), r.rep - 1, r.lineNumber, spec.sha256, started, Some(finished), false,
      ExitStatus.Succeeded, None, o.promptTokens, o.generatedTokens, o.prefillTokenPerSec,
      if o.generatedTokens > 0 then o.decodeTokenPerSec else None,
      if r.rawLine.Some? then Some(r.rawLine.value + "\n") else None))
  }

  function FailedContent(m: Manifest, records: seq<Record>, i: nat, spec: ModelSpec): Result<Content, ImportError>
    requires i < |records|
  {
    var r := records[i];
    var found := FindFailure(m.failures, r.tag, r.rep);
    if found.None? then Err(NoFailureEntry)
    else
      var f := found.value;
      if f.exitStatus.None? then Err(BadExitStatus)
      else
        var started :- StartOfFailure(m, f, records, i);
        Ok(Content(Some(m.logSha256), Some(r.tag), r.rep - 1, r.lineNumber, spec.sha256, started, None,
          f.startedAtMs.None?, f.exitStatus.value, Some(f.errorSummary),
          if m.promptTokenCount.Some? then m.promptTokenCount.value else 0, 0, 0.0, None,
          if r.rawLine.Some? then Some(r.rawLine.value + "\n") else None))
  }

  function StartOfFailure(m: Manifest, f: FailureSpec, records: seq<Record>, i: nat): Result<int, ImportError>
    requires i < |records|
  {
    match f.startedAtMs
    case Some(t) => Ok(t)
    case None =>
      match LastSeen(records, i)
      case None => Err(NoTimestamp)
      case Some(ms) => Epoch(m, ms)
  }

  /** The row of record `i`: it depends on the manifest and the log alone. */
  function ContentAt(m: Manifest, records: seq<Record>, i: nat, spec: ModelSpec): (c: Result<Content, ImportError>)
    requires i < |records|
    ensures c.Ok? ==> c.value.logSha256 == Some(m.logSha256) && c.value.modelSha256 == spec.sha256
    ensures c.Ok? ==> c.value.tag == Some(records[i].tag) && c.value.repetition == records[i].rep - 1
  {
    match records[i].observer
    case Some(o) => ObservedContent(m, records[i], o, spec)
    case None => FailedContent(m, records, i, spec)
  }

  /** The CHECK constraints of the `runs` table that a row can fail here. */
  predicate TableAccepts(c: Content) {
    && c.inputTokens >= 0 && c.outputTokens >= 0 && c.prefill >= 0.0
    && (c.decode.Some? ==> c.decode.value >= 0.0)
  }

  datatype Step =
    | SkipTag
    | AlreadyPresent
    | Insert(content: Content, models: set<Sha256Hex>)
    | Abort(error: ImportError, models: set<Sha256Hex>)

  /** What the importer does with record `i`; `imported` was read once, before
      the first record. */
  function StepAt(m: Manifest, records: seq<Record>, i: nat, imported: Keys, models: set<Sha256Hex>): Step
    requires i < |records|
  {
    var r := records[i];
    if r.tag in m.skipTags then SkipTag
    else if r.rep - 1 < 0 then Abort(RepetitionBelowOne, models)
    else if KeyAt(records, i) in imported then AlreadyPresent
    else if r.tag !in m.models then Abort(NoModelEntry, models)
    else
      var spec := m.models[r.tag];
      match ResolveModel(m, models, spec)
      case Unresolved(error, after) => Abort(error, after)
      case Resolved(after) =>
        match ContentAt(m, records, i, spec)
        case Err(error) => Abort(error, after)
        case Ok(content) => if TableAccepts(content) then Insert(content, after) else Abort(InsertRefused, after)
  }

  // ----- A run of the importer ----------------------------------------------

  datatype ImportState = ImportState(
    view: View,
    error: Option<ImportError>,
    inserted: nat,
    skippedExisting: nat,
    skippedTags: nat)

  function Advance(p: ImportState, m: Manifest, records: seq<Record>, i: nat, imported: Keys): ImportState
    requires i < |records|
  {
    if p.error.Some? then p
    else
      match StepAt(m, records, i, imported, p.view.models)
      case SkipTag => p.(skippedTags := p.skippedTags + 1)
      case AlreadyPresent => p.(skippedExisting := p.skippedExisting + 1)
      case Insert(content, models) => p.(view := View(models, p.view.rows + [content]), inserted := p.inserted + 1)
      case Abort(error, models) => p.(view := p.view.(models := models), error := Some(error))
  }

  /** Where a run stands after `n` records: what is left behind when it is killed
      there. */
  function RunTo(v: View, m: Manifest, records: seq<Record>, imported: Keys, n: nat): ImportState
    requires n <= |records|
  {
    if n == 0 then ImportState(v, None, 0, 0, 0)
    else Advance(RunTo(v, m, records, imported, n - 1), m, records, n - 1, imported)
  }

  function Start(v: View, m: Manifest): Keys {
    ImportedRepetitions(v.rows, m.logSha256)
  }

  /** A run killed before record `n`. */
  function Interrupted(v: View, m: Manifest, records: seq<Record>, n: nat): ImportState
    requires n <= |records|
  {
    RunTo(v, m, records, Start(v, m), n)
  }

  /** A run that nothing interrupts; it may still end with an error. */
  function Import(v: View, m: Manifest, records: seq<Record>): ImportState {
    Interrupted(v, m, records, |records|)
  }
}
