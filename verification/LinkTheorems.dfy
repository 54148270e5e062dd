/** What the link from a results row selects. */
module LinkTheorems {
  import opened Prelude
  import opened Domain
  import opened HostRules
  import opened Runs
  import opened ConfigKeys
  import opened Filters
  import opened Results
  import opened Sorting
  import Decimal

  function LinkText(k: ConfigKey, js: Numbers, key: FilterKey): Option<string> {
    NotEmpty(Lookup(LinkTexts(k, js), key))
  }

  lemma DeviceTexts(k: ConfigKey, js: Numbers)
    ensures LinkText(k, js, PlatformKey) == Some(PlatformName(k.platform))
    ensures LinkText(k, js, DeviceClassKey) == None
    ensures LinkText(k, js, DeviceSerialKey) == NotEmpty(Some(k.deviceSerial))
    ensures LinkText(k, js, ModelAssetKey) == NotEmpty(Some(k.modelAssetId))
  {
  }

  lemma BuildTexts(k: ConfigKey, js: Numbers)
    ensures LinkText(k, js, CommitKey) == NotEmpty(Some(k.gitCommitSha))
    ensures LinkText(k, js, BranchKey) == None
    ensures LinkText(k, js, DirtyKey) == Some(if k.gitDirty then "true" else "false")
    ensures LinkText(k, js, PromptKey) == NotEmpty(Some(k.promptSha256))
  {
  }

  lemma LabTexts(k: ConfigKey, js: Numbers)
    ensures LinkText(k, js, SumdKey) == NotEmpty(k.sumdDriverVersion)
    ensures LinkText(k, js, BspKey) == NotEmpty(k.bspVersion)
    ensures LinkText(k, js, GpuClockKey) == NotEmpty(NumberText(k.gpuClockMhz, js))
    ensures LinkText(k, js, MifClockKey) == NotEmpty(NumberText(k.mifClockMhz, js))
    ensures LinkText(k, js, IntClockKey) == NotEmpty(NumberText(k.intClockMhz, js))
  {
  }

  lemma OtherTexts(k: ConfigKey, js: Numbers)
    ensures LinkText(k, js, AcceleratorKey) == NotEmpty(k.hostAccelerator)
    ensures LinkText(k, js, ExitStatusKey) == None
    ensures LinkText(k, js, CorrectnessKey) == None
  {
  }

  /** The text that arrives behind the link. */
  function Arrived(k: ConfigKey, js: Numbers, key: FilterKey): Option<string> {
    Lookup(Kept(LinkTexts(k, js), RUNS_FILTER_KEYS), key)
  }

  lemma ArrivesUnlessEmpty(k: ConfigKey, js: Numbers, key: FilterKey)
    ensures Arrived(k, js, key) == LinkText(k, js, key)
  {
    KeptLookup(LinkTexts(k, js), key);
  }

  lemma PlatformReadsBack(p: Platform)
    ensures PlatformNamed(Some(PlatformName(p))) == Some(p) && PlatformName(p) != ""
  {
  }

  /** The filter the link amounts to. */
  function DeviceFilter(k: ConfigKey): RunListFilter {
    RunListFilter(Some(k.platform), None, NotEmpty(Some(k.deviceSerial)), NotEmpty(Some(k.modelAssetId)),
      NotEmpty(Some(k.gitCommitSha)), None, Some(k.gitDirty), NotEmpty(k.sumdDriverVersion), NotEmpty(k.bspVersion),
      k.gpuClockMhz, k.mifClockMhz, k.intClockMhz, NotEmpty(k.hostAccelerator), NotEmpty(Some(k.promptSha256)),
      None, None)
  }

  lemma DevicePart(k: ConfigKey, js: Numbers)
    ensures
      var f, g := LinkFilter(k, js), DeviceFilter(k);
      && f.platform == g.platform && f.deviceClass == g.deviceClass
      && f.deviceSerial == g.deviceSerial && f.modelAssetId == g.modelAssetId
  {
    ArrivesUnlessEmpty(k, js, PlatformKey);
    ArrivesUnlessEmpty(k, js, DeviceClassKey);
    ArrivesUnlessEmpty(k, js, DeviceSerialKey);
    ArrivesUnlessEmpty(k, js, ModelAssetKey);
    PlatformReadsBack(k.platform);
    DeviceTexts(k, js);
    assert LinkFilter(k, js).platform == PlatformNamed(Arrived(k, js, PlatformKey));
    assert LinkFilter(k, js).deviceSerial == Arrived(k, js, DeviceSerialKey);
    assert LinkFilter(k, js).modelAssetId == Arrived(k, js, ModelAssetKey);
    assert LinkFilter(k, js).deviceClass == DeviceClassNamed(Arrived(k, js, DeviceClassKey));
  }

  lemma BuildPart(k: ConfigKey, js: Numbers)
    ensures
      var f, g := LinkFilter(k, js), DeviceFilter(k);
      && f.gitCommitSha == g.gitCommitSha && f.gitBranch == g.gitBranch
      && f.gitDirty == g.gitDirty && f.promptSha256 == g.promptSha256
  {
    ArrivesUnlessEmpty(k, js, CommitKey);
    ArrivesUnlessEmpty(k, js, BranchKey);
    ArrivesUnlessEmpty(k, js, DirtyKey);
    ArrivesUnlessEmpty(k, js, PromptKey);
    BuildTexts(k, js);
    assert LinkFilter(k, js).gitCommitSha == Arrived(k, js, CommitKey);
    assert LinkFilter(k, js).gitBranch == Arrived(k, js, BranchKey);
    assert LinkFilter(k, js).gitDirty == ParseBool(Arrived(k, js, DirtyKey));
    assert LinkFilter(k, js).promptSha256 == Arrived(k, js, PromptKey);
  }

  lemma LabPart(k: ConfigKey, js: Numbers)
    requires js.Lawful() && ClocksAreSafe(k)
    ensures
      var f, g := LinkFilter(k, js), DeviceFilter(k);
      && f.sumdDriverVersion == g.sumdDriverVersion && f.bspVersion == g.bspVersion
      && f.gpuClockMhz == g.gpuClockMhz && f.mifClockMhz == g.mifClockMhz && f.intClockMhz == g.intClockMhz
  {
    ArrivesUnlessEmpty(k, js, SumdKey);
    ArrivesUnlessEmpty(k, js, BspKey);
    ArrivesUnlessEmpty(k, js, GpuClockKey);
    ArrivesUnlessEmpty(k, js, MifClockKey);
    ArrivesUnlessEmpty(k, js, IntClockKey);
    LabTexts(k, js);
    ClockSurvives(k.gpuClockMhz, js);
    ClockSurvives(k.mifClockMhz, js);
    ClockSurvives(k.intClockMhz, js);
    assert LinkFilter(k, js).sumdDriverVersion == Arrived(k, js, SumdKey);
    assert LinkFilter(k, js).bspVersion == Arrived(k, js, BspKey);
    assert LinkFilter(k, js).gpuClockMhz == ParseInt64(Arrived(k, js, GpuClockKey), js);
    assert LinkFilter(k, js).mifClockMhz == ParseInt64(Arrived(k, js, MifClockKey), js);
    assert LinkFilter(k, js).intClockMhz == ParseInt64(Arrived(k, js, IntClockKey), js);
  }

  lemma AcceleratorPart(k: ConfigKey, js: Numbers)
    ensures LinkFilter(k, js).hostAccelerator == DeviceFilter(k).hostAccelerator
  {
    ArrivesUnlessEmpty(k, js, AcceleratorKey);
    OtherTexts(k, js);
    assert LinkFilter(k, js).hostAccelerator == Arrived(k, js, AcceleratorKey);
  }

  lemma QueryOutcome(f: Texts, js: Numbers)
    ensures RunsQuery(f, js).exitStatus == ExitStatusNamed(Lookup(f, ExitStatusKey))
    ensures RunsQuery(f, js).correctness == CorrectnessNamed(Lookup(f, CorrectnessKey))
  {
  }

  lemma NothingNamed()
    ensures ExitStatusNamed(None) == None && CorrectnessNamed(None) == None
  {
  }

  lemma OutcomePart(k: ConfigKey, js: Numbers)
    ensures LinkFilter(k, js).exitStatus == None && LinkFilter(k, js).correctness == None
  {
    var f := Kept(LinkTexts(k, js), RUNS_FILTER_KEYS);
    assert Lookup(f, ExitStatusKey) == None && Lookup(f, CorrectnessKey) == None by {
      ArrivesUnlessEmpty(k, js, ExitStatusKey);
      ArrivesUnlessEmpty(k, js, CorrectnessKey);
      OtherTexts(k, js);
    }
    QueryOutcome(f, js);
    NothingNamed();
  }

  lemma LinkFilterIs(k: ConfigKey, js: Numbers)
    requires js.Lawful() && ClocksAreSafe(k)
    ensures LinkFilter(k, js) == DeviceFilter(k)
  {
    DevicePart(k, js);
    BuildPart(k, js);
    LabPart(k, js);
    AcceleratorPart(k, js);
    OutcomePart(k, js);
  }

  // ----- Main results -------------------------------------------------------

  /** The link selects every run of its row. */
  lemma LinkSelectsTheRow(k: ConfigKey, js: Numbers, r: Run)
    requires js.Lawful() && ClocksAreSafe(k) && KeyOf(r) == k
    ensures Selects(LinkFilter(k, js), r)
  {
    LinkFilterIs(k, js);
  }

  predicate ObeysHostRules(r: Run) {
    TableCheck(r.platform, r.deviceClass, r.host)
  }

  /** Agreement on every key field but the device class, which the link omits. */
  predicate AgreesWith(r: Run, k: ConfigKey) {
    KeyOf(r).(deviceClass := k.deviceClass) == k
  }

  predicate TextsAreSet(k: ConfigKey) {
    && k.deviceSerial != "" && k.modelAssetId != "" && k.gitCommitSha != "" && k.promptSha256 != ""
    && k.sumdDriverVersion != Some("") && k.bspVersion != Some("") && k.hostAccelerator != Some("")
  }

  /** Every dimension that the platform may have is in the link. */
  predicate Pinned(k: ConfigKey) {
    && TextsAreSet(k)
    && (k.platform.Linux? || (k.bspVersion.Some? && k.hostAccelerator.Some?))
  }

  lemma PinnedSelectsOnlyTheRow(k: ConfigKey, js: Numbers, sample: Run, r: Run)
    requires js.Lawful() && ClocksAreSafe(k) && Pinned(k)
    requires ObeysHostRules(sample) && KeyOf(sample) == k
    requires ObeysHostRules(r) && Selects(LinkFilter(k, js), r)
    ensures AgreesWith(r, k)
  {
    LinkFilterIs(k, js);
  }

  lemma EmptyTextSelectsAnother(k: ConfigKey, js: Numbers, sample: Run) returns (r: Run)
    requires js.Lawful() && ClocksAreSafe(k) && !TextsAreSet(k)
    requires ObeysHostRules(sample) && KeyOf(sample) == k
    ensures ObeysHostRules(r) && Selects(LinkFilter(k, js), r) && !AgreesWith(r, k) && r.deviceClass == sample.deviceClass
  {
    LinkFilterIs(k, js);
    if k.deviceSerial == "" {
      r := sample.(deviceSerial := "x");
    } else if k.modelAssetId == "" {
      r := sample.(modelAssetId := "x");
    } else if k.gitCommitSha == "" {
      r := sample.(gitCommitSha := "x");
    } else if k.promptSha256 == "" {
      r := sample.(promptSha256 := "x");
    } else if k.sumdDriverVersion == Some("") {
      r := sample.(host := sample.host.(sumdDriverVersion := Some("x")));
    } else if k.bspVersion == Some("") {
      r := sample.(host := sample.host.(bspVersion := Some("x")));
    } else {
      r := sample.(host := sample.host.(hostAccelerator := Some("x")));
    }
  }

  /** A run of a configuration that is not pinned has a neighbour that the link
      selects as well, though it is of another configuration. */
  lemma UnpinnedSelectsAnother(k: ConfigKey, js: Numbers, sample: Run) returns (r: Run)
    requires js.Lawful() && ClocksAreSafe(k) && !Pinned(k)
    requires ObeysHostRules(sample) && KeyOf(sample) == k
    ensures ObeysHostRules(r) && Selects(LinkFilter(k, js), r) && !AgreesWith(r, k) && r.deviceClass == sample.deviceClass
  {
    if !TextsAreSet(k) {
      r := EmptyTextSelectsAnother(k, js, sample);
      return;
    }
    LinkFilterIs(k, js);
    if k.hostAccelerator.None? {
      r := sample.(host := sample.host.(hostAccelerator := Some("x")));
    } else {
      r := sample.(host := sample.host.(bspVersion := Some("x"), sumdDriverVersion := Some("x"),
        gpuClockMhz := Some(1), mifClockMhz := Some(1), intClockMhz := Some(1)));
    }
  }

  /** Over runs that obey the host rules, the link of a row selects only runs that
      agree with it on every key field but the device class, if and only if no
      key text is empty and the row is a Linux row or has both a lab
      configuration and an accelerator. */
  lemma LinkIsExactIffPinned(k: ConfigKey, js: Numbers, sample: Run)
    requires js.Lawful() && ClocksAreSafe(k)
    requires ObeysHostRules(sample) && KeyOf(sample) == k
    ensures (forall r :: ObeysHostRules(r) && Selects(LinkFilter(k, js), r) ==> AgreesWith(r, k)) <==> Pinned(k)
  {
    if Pinned(k) {
      forall r | ObeysHostRules(r) && Selects(LinkFilter(k, js), r) ensures AgreesWith(r, k) {
        PinnedSelectsOnlyTheRow(k, js, sample, r);
      }
    } else {
      var r := UnpinnedSelectsAnother(k, js, sample);
    }
  }

  /** The device class is never pinned: a Linux run of the other class is selected
      with the row's. */
  lemma DeviceClassIsNotPinned(k: ConfigKey, js: Numbers, sample: Run, other: DeviceClass)
    requires js.Lawful() && ClocksAreSafe(k) && k.platform.Linux?
    requires ObeysHostRules(sample) && KeyOf(sample) == k
    ensures
      var r := sample.(deviceClass := other);
      ObeysHostRules(r) && Selects(LinkFilter(k, js), r) && KeyOf(r) == k.(deviceClass := other)
  {
    LinkFilterIs(k, js);
  }

  // ----- The link and the row's count ---------------------------------------

  /** The runs that a row counts on a page of filtered results. */
  lemma CountedRuns(table: seq<Run>, f: ResultsFilter, k: ConfigKey, r: Run)
    ensures r in Group(Matching(table, f), k) <==> r in table && Selects(f.AsRunListFilter(), r) && KeyOf(r) == k
  {
    SortPermutes(OldestFirst, Filter(table, x => Selects(f.AsRunListFilter(), x)));
  }

  /** A results filter asks for key fields and the branch, so runs of one
      configuration differ for it in their branches only. */
  lemma OnlyTheBranchDiffers(f: ResultsFilter, sample: Run, r: Run)
    requires Selects(f.AsRunListFilter(), sample) && KeyOf(r) == KeyOf(sample)
    ensures Selects(f.AsRunListFilter(), r) <==> Wants(f.gitBranch, r.gitBranch)
  {
  }

  /** A run that a row neither counts nor leaves out for its device class, and that
      the link lists. */
  lemma LinkListsMore(k: ConfigKey, js: Numbers, f: ResultsFilter, sample: Run) returns (r: Run)
    requires js.Lawful() && ClocksAreSafe(k) && ObeysHostRules(sample) && KeyOf(sample) == k
    requires !Pinned(k) || f.gitBranch.Some?
    ensures ObeysHostRules(r) && r.deviceClass == k.deviceClass && Selects(LinkFilter(k, js), r)
    ensures KeyOf(r) != k || !Selects(f.AsRunListFilter(), r)
  {
    if !Pinned(k) {
      r := UnpinnedSelectsAnother(k, js, sample);
    } else {
      r := sample.(gitBranch := None);
      LinkSelectsTheRow(k, js, r);
    }
  }

  /** Among runs of the row's device class, the link lists exactly those that the row
      counts, whatever the table holds, if and only if the row is pinned and the
      results are not filtered by branch, which is not in the link. */
  lemma LinkListsTheCountIff(k: ConfigKey, js: Numbers, f: ResultsFilter, sample: Run)
    requires js.Lawful() && ClocksAreSafe(k)
    requires ObeysHostRules(sample) && KeyOf(sample) == k && Selects(f.AsRunListFilter(), sample)
    ensures
      (forall r :: ObeysHostRules(r) && r.deviceClass == k.deviceClass ==>
         (Selects(LinkFilter(k, js), r) <==> KeyOf(r) == k && Selects(f.AsRunListFilter(), r)))
      <==> Pinned(k) && f.gitBranch.None?
  {
    if Pinned(k) && f.gitBranch.None? {
      forall r | ObeysHostRules(r) && r.deviceClass == k.deviceClass
        ensures Selects(LinkFilter(k, js), r) <==> KeyOf(r) == k && Selects(f.AsRunListFilter(), r)
      {
        ListedRun(k, js, f, sample, r);
      }
    } else {
      var r := LinkListsMore(k, js, f, sample);
    }
  }

  lemma ListedRun(k: ConfigKey, js: Numbers, f: ResultsFilter, sample: Run, r: Run)
    requires js.Lawful() && ClocksAreSafe(k) && Pinned(k) && ObeysHostRules(r)
    requires ObeysHostRules(sample) && KeyOf(sample) == k && Selects(f.AsRunListFilter(), sample)
    ensures Selects(LinkFilter(k, js), r) ==> AgreesWith(r, k)
    ensures KeyOf(r) == k ==>
      && Selects(LinkFilter(k, js), r)
      && (Selects(f.AsRunListFilter(), r) <==> Wants(f.gitBranch, r.gitBranch))
  {
    if Selects(LinkFilter(k, js), r) {
      PinnedSelectsOnlyTheRow(k, js, sample, r);
    }
    if KeyOf(r) == k {
      LinkSelectsTheRow(k, js, r);
      OnlyTheBranchDiffers(f, sample, r);
    }
  }

  /** The link omits the device class. */
  lemma AgreementIsListed(k: ConfigKey, js: Numbers, r: Run)
    requires js.Lawful() && ClocksAreSafe(k) && AgreesWith(r, k)
    ensures Selects(LinkFilter(k, js), r)
  {
    LinkFilterIs(k, js);
  }

  predicate Listed(k: ConfigKey, js: Numbers, r: Run) {
    Selects(LinkFilter(k, js), r)
  }

  predicate Counted(table: seq<Run>, f: ResultsFilter, k: ConfigKey, r: Run) {
    r in Group(Matching(table, f), k)
  }

  /** Of the row's device class, and of a branch that the results do not leave out. */
  predicate MayBeCounted(f: ResultsFilter, k: ConfigKey, r: Run) {
    r.deviceClass == k.deviceClass && Wants(f.gitBranch, r.gitBranch)
  }

  lemma ListedAndCounted(k: ConfigKey, js: Numbers, table: seq<Run>, f: ResultsFilter, sample: Run, r: Run)
    requires js.Lawful() && ClocksAreSafe(k) && Pinned(k)
    requires ObeysHostRules(sample) && KeyOf(sample) == k && Selects(f.AsRunListFilter(), sample)
    requires ObeysHostRules(r) && r in table
    ensures Listed(k, js, r) <==> AgreesWith(r, k)
    ensures Counted(table, f, k, r) <==> AgreesWith(r, k) && MayBeCounted(f, k, r)
  {
    CountedRuns(table, f, k, r);
    ListedRun(k, js, f, sample, r);
    if AgreesWith(r, k) {
      AgreementIsListed(k, js, r);
    }
  }

  /** On one table: the link of a pinned row lists exactly the runs that the row
      counts, if and only if no run that agrees with the row is of the other device
      class or of a branch that the results leave out. */
  lemma LinkListsTheGroupIff(k: ConfigKey, js: Numbers, table: seq<Run>, f: ResultsFilter, sample: Run)
    requires js.Lawful() && ClocksAreSafe(k) && Pinned(k)
    requires (forall r :: r in table ==> ObeysHostRules(r)) && Counted(table, f, k, sample)
    ensures
      (forall r :: r in table ==> (Listed(k, js, r) <==> Counted(table, f, k, r)))
      <==> (forall r :: r in table && AgreesWith(r, k) ==> MayBeCounted(f, k, r))
  {
    CountedRuns(table, f, k, sample);
    forall r | r in table
      ensures Listed(k, js, r) <==> AgreesWith(r, k)
      ensures Counted(table, f, k, r) <==> AgreesWith(r, k) && MayBeCounted(f, k, r)
    {
      ListedAndCounted(k, js, table, f, sample, r);
    }
  }

  /** Decimal texts are lawful, so the results above are about something. */
  lemma LawfulNumbersExist()
    ensures Numbers(Decimal.ParseI64, Decimal.IntText).Lawful()
  {
    forall n | IsSafeInteger(n) ensures Decimal.IntText(n) != "" && Decimal.ParseI64(Decimal.IntText(n)) == Some(n) {
      Decimal.IntTextRoundTrips(n);
      Decimal.IntTextCharacters(n);
    }
  }
}
