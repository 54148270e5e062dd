/** URL-backed filters of the dashboard, and the link from a results row to its
    runs. */
module Filters {
  import opened Prelude
  import opened Domain
  import opened Runs
  import opened ConfigKeys

  /** The filters of the runs page, by their names in the query string. */
  datatype FilterKey =
    | PlatformKey | DeviceClassKey | DeviceSerialKey | ModelAssetKey | CommitKey | BranchKey | DirtyKey | SumdKey
    | BspKey | GpuClockKey | MifClockKey | IntClockKey | AcceleratorKey | PromptKey | ExitStatusKey | CorrectnessKey

  type Texts = map<FilterKey, string>

  const RUNS_FILTER_KEYS: seq<FilterKey> := [
    PlatformKey, DeviceClassKey, DeviceSerialKey, ModelAssetKey, CommitKey, BranchKey, DirtyKey,
    SumdKey, BspKey, GpuClockKey, MifClockKey, IntClockKey, AcceleratorKey,
    PromptKey, ExitStatusKey, CorrectnessKey]

  /** What both directions keep: known keys with a text that is not empty. */
  function Kept(texts: Texts, keys: seq<FilterKey>): Texts {
    map k | k in texts && k in keys && texts[k] != "" :: texts[k]
  }

  /** Query parameters to filters; `params` holds the first value of each. */
  method Parse(params: Texts, keys: seq<FilterKey>) returns (out: Texts)
    ensures out == Kept(params, keys)
  {
    out := map[];
    for i := 0 to |keys|
      invariant out == Kept(params, keys[..i])
    {
      var key := keys[i];
      if key in params && params[key] != "" {
        out := out[key := params[key]];
      }
      assert forall k :: k in keys[..i + 1] <==> k in keys[..i] || k == key;
    }
    assert keys[..|keys|] == keys;
  }

  /** Filters to query parameters. */
  method Serialize(filters: Texts, keys: seq<FilterKey>) returns (params: Texts)
    ensures params == Kept(filters, keys)
  {
    params := map[];
    for i := 0 to |keys|
      invariant params == Kept(filters, keys[..i])
    {
      var key := keys[i];
      if key in filters {
        var value := filters[key];
        if value != "" {
          params := params[key := value];
        }
      }
      assert forall k :: k in keys[..i + 1] <==> k in keys[..i] || k == key;
    }
    assert keys[..|keys|] == keys;
  }

  /** What was serialized parses back to itself. */
  lemma SerializedParsesBack(filters: Texts, keys: seq<FilterKey>)
    ensures Kept(Kept(filters, keys), keys) == Kept(filters, keys)
  {
  }

  // ----- The typed query ----------------------------------------------------

  /** Number texts of JavaScript: `Number` restricted to integers, and `String`. */
  datatype Numbers = Numbers(parse: string -> Option<int>, text: int -> string)
  {
    /** Integers are exact up to 2^53. */
    ghost predicate Lawful() {
      forall n :: IsSafeInteger(n) ==> text(n) != "" && parse(text(n)) == Some(n)
    }
  }

  predicate IsSafeInteger(n: int) {
    -0x20_0000_0000_0000 <= n <= 0x20_0000_0000_0000
  }

  function Lookup(filters: Texts, key: FilterKey): Option<string> {
    if key in filters then Some(filters[key]) else None
  }

  function PlatformNamed(v: Option<string>): Option<Platform> {
    if v == Some("android") then Some(Android) else if v == Some("linux") then Some(Linux) else None
  }

  function DeviceClassNamed(v: Option<string>): Option<DeviceClass> {
    if v == Some("internal") then Some(Internal) else if v == Some("external") then Some(External) else None
  }

  function ExitStatusNamed(v: Option<string>): Option<ExitStatus> {
    if v == Some("succeeded") then Some(Succeeded)
    else if v == Some("crashed") then Some(Crashed)
    else if v == Some("timed_out") then Some(TimedOut)
    else if v == Some("cancelled") then Some(Cancelled)
    else if v == Some("infrastructure_error") then Some(InfrastructureError)
    else None
  }

  function CorrectnessNamed(v: Option<string>): Option<CorrectnessResult> {
    if v == Some("passed") then Some(Passed)
    else if v == Some("failed") then Some(Failed)
    else if v == Some("not_checked") then Some(NotChecked)
    else if v == Some("validator_error") then Some(ValidatorError)
    else None
  }

  function ParseBool(v: Option<string>): Option<bool> {
    if v == Some("true") then Some(true) else if v == Some("false") then Some(false) else None
  }

  function ParseInt64(v: Option<string>, js: Numbers): Option<int> {
    if v.Some? then js.parse(v.value) else None
  }

  /** The query for the runs listing; a text that names no value is dropped. */
  function RunsQuery(f: Texts, js: Numbers): RunListFilter {
    RunListFilter(
      PlatformNamed(Lookup(f, PlatformKey)),
      DeviceClassNamed(Lookup(f, DeviceClassKey)),
      Lookup(f, DeviceSerialKey),
      Lookup(f, ModelAssetKey),
      Lookup(f, CommitKey),
      Lookup(f, BranchKey),
      ParseBool(Lookup(f, DirtyKey)),
      Lookup(f, SumdKey),
      Lookup(f, BspKey),
      ParseInt64(Lookup(f, GpuClockKey), js),
      ParseInt64(Lookup(f, MifClockKey), js),
      ParseInt64(Lookup(f, IntClockKey), js),
      Lookup(f, AcceleratorKey),
      Lookup(f, PromptKey),
      ExitStatusNamed(Lookup(f, ExitStatusKey)),
      CorrectnessNamed(Lookup(f, CorrectnessKey)))
  }

  /** The parameter is there, with this text. */
  predicate Says(f: Texts, key: FilterKey, text: string) {
    key in f && f[key] == text
  }

  /** `value` is the parameter's text, if it is there. */
  predicate IsTextOf(value: Option<string>, f: Texts, key: FilterKey) {
    if key in f then value == Some(f[key]) else value.None?
  }

  predicate IsNumberOf(value: Option<int>, f: Texts, key: FilterKey, js: Numbers) {
    if key in f then value == js.parse(f[key]) else value.None?
  }

  /** What the query asks of the device and the build, parameter by parameter. */
  lemma QueryOfDeviceMeans(f: Texts, js: Numbers)
    ensures
      var q := RunsQuery(f, js);
      && (q.platform == Some(Platform.Android) <==> Says(f, PlatformKey, "android"))
      && (q.platform == Some(Platform.Linux) <==> Says(f, PlatformKey, "linux"))
      && (q.deviceClass == Some(DeviceClass.Internal) <==> Says(f, DeviceClassKey, "internal"))
      && (q.deviceClass == Some(DeviceClass.External) <==> Says(f, DeviceClassKey, "external"))
      && IsTextOf(q.deviceSerial, f, DeviceSerialKey) && IsTextOf(q.modelAssetId, f, ModelAssetKey)
      && IsTextOf(q.gitCommitSha, f, CommitKey) && IsTextOf(q.gitBranch, f, BranchKey)
      && (q.gitDirty == Some(true) <==> Says(f, DirtyKey, "true"))
      && (q.gitDirty == Some(false) <==> Says(f, DirtyKey, "false"))
  {
  }

  /** What it asks of software, clocks and prompt. */
  lemma QueryOfLabMeans(f: Texts, js: Numbers)
    ensures
      var q := RunsQuery(f, js);
      && IsTextOf(q.sumdDriverVersion, f, SumdKey) && IsTextOf(q.bspVersion, f, BspKey)
      && IsNumberOf(q.gpuClockMhz, f, GpuClockKey, js) && IsNumberOf(q.mifClockMhz, f, MifClockKey, js)
      && IsNumberOf(q.intClockMhz, f, IntClockKey, js)
      && IsTextOf(q.hostAccelerator, f, AcceleratorKey) && IsTextOf(q.promptSha256, f, PromptKey)
  {
  }

  /** What it asks of the outcome. */
  lemma QueryOfOutcomeMeans(f: Texts, js: Numbers)
    ensures
      var q := RunsQuery(f, js);
      && (q.exitStatus == Some(ExitStatus.Succeeded) <==> Says(f, ExitStatusKey, "succeeded"))
      && (q.exitStatus == Some(ExitStatus.Crashed) <==> Says(f, ExitStatusKey, "crashed"))
      && (q.exitStatus == Some(ExitStatus.TimedOut) <==> Says(f, ExitStatusKey, "timed_out"))
      && (q.exitStatus == Some(ExitStatus.Cancelled) <==> Says(f, ExitStatusKey, "cancelled"))
      && (q.exitStatus == Some(ExitStatus.InfrastructureError) <==> Says(f, ExitStatusKey, "infrastructure_error"))
      && (q.correctness == Some(CorrectnessResult.Passed) <==> Says(f, CorrectnessKey, "passed"))
      && (q.correctness == Some(CorrectnessResult.Failed) <==> Says(f, CorrectnessKey, "failed"))
      && (q.correctness == Some(CorrectnessResult.NotChecked) <==> Says(f, CorrectnessKey, "not_checked"))
      && (q.correctness == Some(CorrectnessResult.ValidatorError) <==> Says(f, CorrectnessKey, "validator_error"))
  {
  }

  // ----- The link of a results row ------------------------------------------

  function PlatformName(p: Platform): string {
    if p.Android? then "android" else "linux"
  }

  function With(texts: Texts, key: FilterKey, value: Option<string>): Texts {
    if value.Some? then texts[key := value.value] else texts
  }

  function NumberText(n: Option<int>, js: Numbers): Option<string> {
    if n.Some? then Some(js.text(n.value)) else None
  }

  /** The filters of the link: every key field but the device class. */
  function LinkTexts(k: ConfigKey, js: Numbers): Texts {
    var fixed := map[
      PlatformKey := PlatformName(k.platform),
      DeviceSerialKey := k.deviceSerial,
      ModelAssetKey := k.modelAssetId,
      CommitKey := k.gitCommitSha,
      DirtyKey := if k.gitDirty then "true" else "false",
      PromptKey := k.promptSha256];
    var driver := With(With(fixed, SumdKey, k.sumdDriverVersion), BspKey, k.bspVersion);
    var clocks := With(With(With(driver, GpuClockKey, NumberText(k.gpuClockMhz, js)),
                                 MifClockKey, NumberText(k.mifClockMhz, js)),
                                 IntClockKey, NumberText(k.intClockMhz, js));
    With(clocks, AcceleratorKey, k.hostAccelerator)
  }

  /** Following the link: its parameters parsed back and run as a query. */
  method FollowLink(k: ConfigKey, js: Numbers) returns (f: RunListFilter)
    ensures f == LinkFilter(k, js)
  {
    var params := Serialize(LinkTexts(k, js), RUNS_FILTER_KEYS);
    var filters := Parse(params, RUNS_FILTER_KEYS);
    SerializedParsesBack(LinkTexts(k, js), RUNS_FILTER_KEYS);
    f := RunsQuery(filters, js);
  }

  function LinkFilter(k: ConfigKey, js: Numbers): RunListFilter {
    RunsQuery(Kept(LinkTexts(k, js), RUNS_FILTER_KEYS), js)
  }

  /** A filter text survives the link unless it is empty. */
  function NotEmpty(v: Option<string>): Option<string> {
    if v == Some("") then None else v
  }

  predicate ClockIsSafe(n: Option<int>) {
    n.Some? ==> IsSafeInteger(n.value)
  }

  predicate ClocksAreSafe(k: ConfigKey) {
    ClockIsSafe(k.gpuClockMhz) && ClockIsSafe(k.mifClockMhz) && ClockIsSafe(k.intClockMhz)
  }

  lemma EveryKeyIsListed(key: FilterKey)
    ensures key in RUNS_FILTER_KEYS
  {
    var i :=
      match key
      case PlatformKey => 0
      case DeviceClassKey => 1
      case DeviceSerialKey => 2
      case ModelAssetKey => 3
      case CommitKey => 4
      case BranchKey => 5
      case DirtyKey => 6
      case SumdKey => 7
      case BspKey => 8
      case GpuClockKey => 9
      case MifClockKey => 10
      case IntClockKey => 11
      case AcceleratorKey => 12
      case PromptKey => 13
      case ExitStatusKey => 14
      case CorrectnessKey => 15;
    assert RUNS_FILTER_KEYS[i] == key;
  }

  lemma KeptLookup(texts: Texts, key: FilterKey)
    ensures Lookup(Kept(texts, RUNS_FILTER_KEYS), key) == NotEmpty(Lookup(texts, key))
  {
    EveryKeyIsListed(key);
  }

  lemma ClockSurvives(n: Option<int>, js: Numbers)
    requires js.Lawful() && ClockIsSafe(n)
    ensures ParseInt64(NotEmpty(NumberText(n, js)), js) == n
  {
  }
}
