/** The `runs` table: its rows, the exact-match filters, and the newest-first
    order of the listing. */
module Runs {
  import opened Prelude
  import opened Domain
  import opened HostRules
  import opened Sorting

  /** The columns that filters, listing and results use.  Timestamps count
      nanoseconds. */
  datatype Run = Run(
    id: Uuid,
    startedAt: int,
    platform: Platform,
    deviceClass: DeviceClass,
    deviceSerial: string,
    deviceModel: Option<string>,
    host: HostColumns,
    modelAssetId: Uuid,
    modelOriginalName: Option<string>,
    gitCommitSha: string,
    gitDirty: bool,
    gitBranch: Option<string>,
    gitCommitTimestamp: Option<int>,
    gitCommitSubject: Option<string>,
    promptSha256: Sha256Hex,
    inputTokenCount: int,
    prefill: real,
    decode: Option<real>,
    exitStatus: ExitStatus,
    correctness: CorrectnessResult)

  /** `id` is the table's primary key. */
  ghost predicate IsTable(table: seq<Run>) {
    forall i, j :: 0 <= i < j < |table| ==> table[i].id != table[j].id
  }

  // ----- Filters ------------------------------------------------------------

  /** Set fields are combined conjunctively. */
  datatype RunListFilter = RunListFilter(
    platform: Option<Platform>,
    deviceClass: Option<DeviceClass>,
    deviceSerial: Option<string>,
    modelAssetId: Option<Uuid>,
    gitCommitSha: Option<string>,
    gitBranch: Option<string>,
    gitDirty: Option<bool>,
    sumdDriverVersion: Option<string>,
    bspVersion: Option<string>,
    gpuClockMhz: Option<int>,
    mifClockMhz: Option<int>,
    intClockMhz: Option<int>,
    hostAccelerator: Option<string>,
    promptSha256: Option<Sha256Hex>,
    exitStatus: Option<ExitStatus>,
    correctness: Option<CorrectnessResult>)

  /** `column = ?`: not true when the column is NULL. */
  datatype Clause =
    | PlatformIs(platform: Platform)
    | DeviceClassIs(deviceClass: DeviceClass)
    | DeviceSerialIs(text: string)
    | ModelAssetIs(id: Uuid)
    | CommitIs(text: string)
    | BranchIs(text: string)
    | DirtyIs(flag: bool)
    | SumdIs(text: string)
    | BspIs(text: string)
    | GpuClockIs(mhz: int)
    | MifClockIs(mhz: int)
    | IntClockIs(mhz: int)
    | AcceleratorIs(text: string)
    | PromptIs(sha: Sha256Hex)
    | ExitStatusIs(exitStatus: ExitStatus)
    | CorrectnessIs(correctness: CorrectnessResult)
  {
    predicate Holds(r: Run) {
      match this
      case PlatformIs(v) => r.platform == v
      case DeviceClassIs(v) => r.deviceClass == v
      case DeviceSerialIs(v) => r.deviceSerial == v
      case ModelAssetIs(v) => r.modelAssetId == v
      case CommitIs(v) => r.gitCommitSha == v
      case BranchIs(v) => r.gitBranch == Some(v)
      case DirtyIs(v) => r.gitDirty == v
      case SumdIs(v) => r.host.sumdDriverVersion == Some(v)
      case BspIs(v) => r.host.bspVersion == Some(v)
      case GpuClockIs(v) => r.host.gpuClockMhz == Some(v)
      case MifClockIs(v) => r.host.mifClockMhz == Some(v)
      case IntClockIs(v) => r.host.intClockMhz == Some(v)
      case AcceleratorIs(v) => r.host.hostAccelerator == Some(v)
      case PromptIs(v) => r.promptSha256 == v
      case ExitStatusIs(v) => r.exitStatus == v
      case CorrectnessIs(v) => r.correctness == v
    }
  }

  /** A set filter field asks for exactly its value. */
  predicate Wants<T(==)>(wanted: Option<T>, actual: Option<T>) {
    wanted.Some? ==> wanted == actual
  }

  /** The runs a filter selects. */
  predicate Selects(f: RunListFilter, r: Run) {
    SelectsDevice(f, r) && SelectsBuild(f, r) && SelectsLab(f, r) && SelectsOutcome(f, r)
  }

  predicate SelectsDevice(f: RunListFilter, r: Run) {
    && Wants(f.platform, Some(r.platform))
    && Wants(f.deviceClass, Some(r.deviceClass))
    && Wants(f.deviceSerial, Some(r.deviceSerial))
    && Wants(f.modelAssetId, Some(r.modelAssetId))
  }

  predicate SelectsBuild(f: RunListFilter, r: Run) {
    && Wants(f.gitCommitSha, Some(r.gitCommitSha))
    && Wants(f.gitBranch, r.gitBranch)
    && Wants(f.gitDirty, Some(r.gitDirty))
  }

  predicate SelectsLab(f: RunListFilter, r: Run) {
    && Wants(f.sumdDriverVersion, r.host.sumdDriverVersion)
    && Wants(f.bspVersion, r.host.bspVersion)
    && Wants(f.gpuClockMhz, r.host.gpuClockMhz)
    && Wants(f.mifClockMhz, r.host.mifClockMhz)
    && Wants(f.intClockMhz, r.host.intClockMhz)
  }

  predicate SelectsOutcome(f: RunListFilter, r: Run) {
    && Wants(f.hostAccelerator, r.host.hostAccelerator)
    && Wants(f.promptSha256, Some(r.promptSha256))
    && Wants(f.exitStatus, Some(r.exitStatus))
    && Wants(f.correctness, Some(r.correctness))
  }

  predicate AllHold(clauses: seq<Clause>, r: Run) {
    forall c :: c in clauses ==> c.Holds(r)
  }

  /** The WHERE part of a query under construction. */
  class QueryBuilder {
    var clauses: seq<Clause>

    constructor ()
      ensures clauses == []
    {
      clauses := [];
    }

    method PushIfSet<T>(wanted: Option<T>, clause: T -> Clause)
      modifies this
      ensures forall r :: AllHold(clauses, r) <==>
        AllHold(old(clauses), r) && (wanted.Some? ==> clause(wanted.value).Holds(r))
    {
      if wanted.Some? {
        clauses := clauses + [clause(wanted.value)];
      }
    }

    method PushDeviceClauses(f: RunListFilter)
      modifies this
      ensures forall r :: AllHold(clauses, r) <==> AllHold(old(clauses), r) && SelectsDevice(f, r)
    {
      PushIfSet(f.platform, v => PlatformIs(v));
      PushIfSet(f.deviceClass, v => DeviceClassIs(v));
      PushIfSet(f.deviceSerial, v => DeviceSerialIs(v));
      PushIfSet(f.modelAssetId, v => ModelAssetIs(v));
    }

    method PushBuildClauses(f: RunListFilter)
      modifies this
      ensures forall r :: AllHold(clauses, r) <==> AllHold(old(clauses), r) && SelectsBuild(f, r)
    {
      PushIfSet(f.gitCommitSha, v => CommitIs(v));
      PushIfSet(f.gitBranch, v => BranchIs(v));
      PushIfSet(f.gitDirty, v => DirtyIs(v));
    }

    method PushLabClauses(f: RunListFilter)
      modifies this
      ensures forall r :: AllHold(clauses, r) <==> AllHold(old(clauses), r) && SelectsLab(f, r)
    {
      PushIfSet(f.sumdDriverVersion, v => SumdIs(v));
      PushIfSet(f.bspVersion, v => BspIs(v));
      PushIfSet(f.gpuClockMhz, v => GpuClockIs(v));
      PushIfSet(f.mifClockMhz, v => MifClockIs(v));
      PushIfSet(f.intClockMhz, v => IntClockIs(v));
    }

    method PushOutcomeClauses(f: RunListFilter)
      modifies this
      ensures forall r :: AllHold(clauses, r) <==> AllHold(old(clauses), r) && SelectsOutcome(f, r)
    {
      PushIfSet(f.hostAccelerator, v => AcceleratorIs(v));
      PushIfSet(f.promptSha256, v => PromptIs(v));
      PushIfSet(f.exitStatus, v => ExitStatusIs(v));
      PushIfSet(f.correctness, v => CorrectnessIs(v));
    }

    /** Appends one clause per set field: the query then accepts exactly the
        runs it accepted before that the filter selects. */
    method PushWhereClauses(f: RunListFilter)
      modifies this
      ensures forall r :: AllHold(clauses, r) <==> AllHold(old(clauses), r) && Selects(f, r)
    {
      PushDeviceClauses(f);
      PushBuildClauses(f);
      PushLabClauses(f);
      PushOutcomeClauses(f);
    }
  }

  /** The filter, column by column.  An unset field asks for nothing; a set one for
      its value, which a NULL column never has. */
  lemma SelectsMeans(f: RunListFilter, r: Run)
    ensures Selects(f, r) <==>
      && (f.platform.Some? ==> r.platform == f.platform.value)
      && (f.deviceClass.Some? ==> r.deviceClass == f.deviceClass.value)
      && (f.deviceSerial.Some? ==> r.deviceSerial == f.deviceSerial.value)
      && (f.modelAssetId.Some? ==> r.modelAssetId == f.modelAssetId.value)
      && (f.gitCommitSha.Some? ==> r.gitCommitSha == f.gitCommitSha.value)
      && (f.gitBranch.Some? ==> r.gitBranch == f.gitBranch)
      && (f.gitDirty.Some? ==> r.gitDirty == f.gitDirty.value)
      && (f.sumdDriverVersion.Some? ==> r.host.sumdDriverVersion == f.sumdDriverVersion)
      && (f.bspVersion.Some? ==> r.host.bspVersion == f.bspVersion)
      && (f.gpuClockMhz.Some? ==> r.host.gpuClockMhz == f.gpuClockMhz)
      && (f.mifClockMhz.Some? ==> r.host.mifClockMhz == f.mifClockMhz)
      && (f.intClockMhz.Some? ==> r.host.intClockMhz == f.intClockMhz)
      && (f.hostAccelerator.Some? ==> r.host.hostAccelerator == f.hostAccelerator)
      && (f.promptSha256.Some? ==> r.promptSha256 == f.promptSha256.value)
      && (f.exitStatus.Some? ==> r.exitStatus == f.exitStatus.value)
      && (f.correctness.Some? ==> r.correctness == f.correctness.value)
  {
  }

  // ----- Order --------------------------------------------------------------

  /** The position of a run in the listing. */
  datatype RunCursor = RunCursor(startedAt: int, id: Uuid)

  function CursorOf(r: Run): RunCursor {
    RunCursor(r.startedAt, r.id)
  }

  function CursorImage(c: RunCursor): seq<seq<int>> {
    [[c.startedAt], Codes(c.id)]
  }

  /** `a` sorts strictly below `b`: what the listing's cursor clause tests. */
  predicate Below(a: RunCursor, b: RunCursor) {
    a.startedAt < b.startedAt || (a.startedAt == b.startedAt && a.id != b.id && LexLeq(Codes(a.id), Codes(b.id)))
  }

  /** `ORDER BY started_at DESC, id DESC`. */
  predicate NewestFirst(a: Run, b: Run) {
    KeyLeq(CursorImage(CursorOf(b)), CursorImage(CursorOf(a)))
  }

  lemma ImageOrder(a: RunCursor, b: RunCursor)
    ensures Below(a, b) <==> KeyLeq(CursorImage(a), CursorImage(b)) && a != b
    ensures CursorImage(a) == CursorImage(b) <==> a == b
  {
    var x, y := CursorImage(a), CursorImage(b);
    CodesInjective(a.id, b.id);
    LexTotal(Codes(a.id), Codes(b.id));
    assert x[0] == [a.startedAt] && y[0] == [b.startedAt];
    assert x[1..] == [Codes(a.id)] && y[1..] == [Codes(b.id)];
    assert LexLeq(x[0], y[0]) <==> a.startedAt <= b.startedAt;
    assert x[1] == Codes(a.id) && y[1] == Codes(b.id);
  }

  /** The position order in words: an earlier start, or the same start and a smaller
      id, which is a proper prefix or smaller at the first difference. */
  lemma BelowMeans(a: RunCursor, b: RunCursor)
    ensures Below(a, b) <==>
      || a.startedAt < b.startedAt
      || (a.startedAt == b.startedAt && (a.id < b.id || exists i: nat :: DiffersAt(a.id, b.id, i)))
  {
    var x, y := Codes(a.id), Codes(b.id);
    LexMeans(x, y);
    assert a.id < b.id <==> x < y;
    forall i: nat ensures SmallerAt(x, y, i) <==> DiffersAt(a.id, b.id, i) {
      if i < |a.id| && i < |b.id| {
        assert x[..i] == Codes(a.id[..i]) && y[..i] == Codes(b.id[..i]);
        CodesInjective(a.id[..i], b.id[..i]);
      }
    }
    CodesInjective(a.id, b.id);
    assert x <= y <==> x == y || x < y;
  }

  /** `a` is smaller than `b` at `i`, up to where they agree. */
  predicate DiffersAt(a: string, b: string, i: nat) {
    i < |a| && i < |b| && a[..i] == b[..i] && a[i] < b[i]
  }

  lemma BelowIsStrictOrder(a: RunCursor, b: RunCursor, c: RunCursor)
    ensures !Below(a, a)
    ensures a != b ==> Below(a, b) || Below(b, a)
    ensures !(Below(a, b) && Below(b, a))
    ensures Below(a, b) && Below(b, c) ==> Below(a, c)
  {
    ImageOrder(a, b);
    ImageOrder(b, a);
    ImageOrder(b, c);
    ImageOrder(a, c);
    KeyTotal(CursorImage(a), CursorImage(b));
    KeyTotal(CursorImage(b), CursorImage(a));
    if Below(a, b) && Below(b, c) {
      KeyTransitive(CursorImage(a), CursorImage(b), CursorImage(c));
    }
  }

  lemma NewestFirstIsPreorder()
    ensures TotalPreorder(NewestFirst)
  {
    forall a, b ensures NewestFirst(a, b) || NewestFirst(b, a) {
      KeyTotal(CursorImage(CursorOf(a)), CursorImage(CursorOf(b)));
    }
    forall a, b, c | NewestFirst(a, b) && NewestFirst(b, c) ensures NewestFirst(a, c) {
      KeyTransitive(CursorImage(CursorOf(c)), CursorImage(CursorOf(b)), CursorImage(CursorOf(a)));
    }
  }

  /** Strictly descending by `(started_at, id)`, so without repetition. */
  ghost predicate Descending(s: seq<Run>) {
    forall i, j :: 0 <= i < j < |s| ==> Below(CursorOf(s[j]), CursorOf(s[i]))
  }
}
