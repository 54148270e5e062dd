/** The benchmark configuration key: its derived order, and the filter that
    selects what results are computed over. */
module ConfigKeys {
  import opened Prelude
  import opened Domain
  import opened Sorting
  import opened Runs

  datatype ConfigKey = ConfigKey(
    platform: Platform,
    deviceClass: DeviceClass,
    deviceSerial: string,
    modelAssetId: Uuid,
    gitCommitSha: string,
    gitDirty: bool,
    sumdDriverVersion: Option<string>,
    bspVersion: Option<string>,
    gpuClockMhz: Option<int>,
    mifClockMhz: Option<int>,
    intClockMhz: Option<int>,
    hostAccelerator: Option<string>,
    promptSha256: Sha256Hex)

  function KeyOf(r: Run): ConfigKey {
    ConfigKey(r.platform, r.deviceClass, r.deviceSerial, r.modelAssetId, r.gitCommitSha, r.gitDirty,
      r.host.sumdDriverVersion, r.host.bspVersion, r.host.gpuClockMhz, r.host.mifClockMhz,
      r.host.intClockMhz, r.host.hostAccelerator, r.promptSha256)
  }

  /** Runs are of one configuration if and only if they agree on these thirteen
      columns. */
  lemma SameKeyMeans(a: Run, b: Run)
    ensures KeyOf(a) == KeyOf(b) <==>
      && a.platform == b.platform && a.deviceClass == b.deviceClass && a.deviceSerial == b.deviceSerial
      && a.modelAssetId == b.modelAssetId && a.gitCommitSha == b.gitCommitSha && a.gitDirty == b.gitDirty
      && a.host.sumdDriverVersion == b.host.sumdDriverVersion && a.host.bspVersion == b.host.bspVersion
      && a.host.gpuClockMhz == b.host.gpuClockMhz && a.host.mifClockMhz == b.host.mifClockMhz
      && a.host.intClockMhz == b.host.intClockMhz && a.host.hostAccelerator == b.host.hostAccelerator
      && a.promptSha256 == b.promptSha256
  {
  }

  /** `None` sorts before every value. */
  function TextImage(v: Option<string>): seq<int> {
    match v
    case None => [0]
    case Some(s) => [1] + Codes(s)
  }

  function NumberImage(v: Option<int>): seq<int> {
    match v
    case None => [0]
    case Some(n) => [1, n]
  }

  /** The fields in declaration order, as the derived order compares them. */
  function KeyImage(k: ConfigKey): seq<seq<int>> {
    [[if k.platform.Android? then 0 else 1],
     [if k.deviceClass.Internal? then 0 else 1],
     Codes(k.deviceSerial),
     Codes(k.modelAssetId),
     Codes(k.gitCommitSha),
     [if k.gitDirty then 1 else 0],
     TextImage(k.sumdDriverVersion),
     TextImage(k.bspVersion),
     NumberImage(k.gpuClockMhz),
     NumberImage(k.mifClockMhz),
     NumberImage(k.intClockMhz),
     TextImage(k.hostAccelerator),
     Codes(k.promptSha256)]
  }

  lemma TextImageInjective(a: Option<string>, b: Option<string>)
    ensures TextImage(a) == TextImage(b) ==> a == b
  {
    if a.Some? && b.Some? && TextImage(a) == TextImage(b) {
      assert TextImage(a)[1..] == Codes(a.value) && TextImage(b)[1..] == Codes(b.value);
      CodesInjective(a.value, b.value);
    } else if a.Some? != b.Some? {
      assert TextImage(a)[0] != TextImage(b)[0];
    }
  }

  lemma NumberImageInjective(a: Option<int>, b: Option<int>)
    ensures NumberImage(a) == NumberImage(b) ==> a == b
  {
    assert NumberImage(a)[0] == if a.Some? then 1 else 0;
    assert NumberImage(b)[0] == if b.Some? then 1 else 0;
    if a.Some? && b.Some? && NumberImage(a) == NumberImage(b) {
      assert NumberImage(a)[1] == NumberImage(b)[1];
    }
  }

  /** The order never ties two different keys. */
  lemma KeyImageInjective(a: ConfigKey, b: ConfigKey)
    requires KeyImage(a) == KeyImage(b)
    ensures a == b
  {
    var x, y := KeyImage(a), KeyImage(b);
    assert x[0] == y[0] && x[1] == y[1] && x[5] == y[5];
    assert x[0][0] == y[0][0] && x[1][0] == y[1][0] && x[5][0] == y[5][0];
    assert x[2] == y[2] && x[3] == y[3] && x[4] == y[4] && x[12] == y[12];
    CodesInjective(a.deviceSerial, b.deviceSerial);
    CodesInjective(a.modelAssetId, b.modelAssetId);
    CodesInjective(a.gitCommitSha, b.gitCommitSha);
    CodesInjective(a.promptSha256, b.promptSha256);
    assert x[6] == y[6] && x[7] == y[7] && x[11] == y[11];
    TextImageInjective(a.sumdDriverVersion, b.sumdDriverVersion);
    TextImageInjective(a.bspVersion, b.bspVersion);
    TextImageInjective(a.hostAccelerator, b.hostAccelerator);
    assert x[8] == y[8] && x[9] == y[9] && x[10] == y[10];
    NumberImageInjective(a.gpuClockMhz, b.gpuClockMhz);
    NumberImageInjective(a.mifClockMhz, b.mifClockMhz);
    NumberImageInjective(a.intClockMhz, b.intClockMhz);
  }

  /** Outcome fields are absent: every run of a configuration counts in its row. */
  datatype ResultsFilter = ResultsFilter(
    platform: Option<Platform>,
    deviceClass: Option<DeviceClass>,
    deviceSerial: Option<string>,
    modelAssetId: Option<Uuid>,
    gitCommitSha: Option<string>,
    gitBranch: Option<string>,
    gitDirty: Option<bool>,
    sumdDriverVersion: Option<string>,
    bspVersion: Option<string>,
    hostAccelerator: Option<string>,
    promptSha256: Option<Sha256Hex>)
  {
    function AsRunListFilter(): RunListFilter {
      RunListFilter(platform, deviceClass, deviceSerial, modelAssetId, gitCommitSha, gitBranch, gitDirty,
        sumdDriverVersion, bspVersion, None, None, None, hostAccelerator, promptSha256, None, None)
    }
  }
}
