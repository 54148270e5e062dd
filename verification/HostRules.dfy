/** Host snapshots: the flat description a caller supplies, the typed snapshot
    the rules build from it, and the flat columns it is stored in. */
module HostRules {
  import opened Prelude
  import opened Domain

  /** Every host field a caller may supply. */
  datatype HostInput = HostInput(
    hostOs: Option<string>,
    hostKernel: Option<string>,
    hostCpuModel: Option<string>,
    hostCpuCount: Option<int>,
    hostMemoryBytes: Option<int>,
    hostAccelerator: Option<string>,
    hostAcceleratorDriver: Option<string>,
    deviceUptimeSeconds: Option<int>,
    thermalThrottling: Option<bool>,
    bspVersion: Option<string>,
    sumdDriverVersion: Option<string>,
    gpuClockMhz: Option<int>,
    mifClockMhz: Option<int>,
    intClockMhz: Option<int>,
    batteryCharging: Option<bool>,
    initialTemperature: Option<real>,
    maxTemperature: Option<real>)

  datatype AndroidLabConfig = AndroidLabConfig(
    bspVersion: string, sumdDriverVersion: string, gpuClockMhz: int, mifClockMhz: int, intClockMhz: int)

  datatype AndroidDeviceState = AndroidDeviceState(
    os: Option<string>,
    kernel: Option<string>,
    soc: Option<string>,
    cpuCount: Option<int>,
    memoryBytes: Option<int>,
    gpu: Option<string>,
    gpuDriver: Option<string>,
    uptimeSeconds: Option<int>,
    batteryCharging: Option<bool>,
    initialTemperature: Option<real>,
    maxTemperature: Option<real>,
    thermalThrottling: Option<bool>,
    lab: Option<AndroidLabConfig>)
  {
    predicate IsCompleteLabSnapshot() {
      lab.Some? && uptimeSeconds.Some? && batteryCharging.Some?
      && initialTemperature.Some? && maxTemperature.Some? && thermalThrottling.Some?
    }
  }

  datatype LinuxHostState = LinuxHostState(
    os: string,
    kernel: string,
    cpuModel: string,
    cpuCount: Option<int>,
    memoryBytes: Option<int>,
    accelerator: string,
    acceleratorDriver: Option<string>,
    uptimeSeconds: Option<int>,
    thermalThrottling: Option<bool>)

  datatype HostState = OnAndroid(android: AndroidDeviceState) | OnLinux(linux: LinuxHostState) {
    function PlatformOf(): Platform {
      if OnAndroid? then Android else Linux
    }
  }

  /** The host columns of a `runs` row; flags are stored as integers. */
  datatype HostColumns = HostColumns(
    hostOs: Option<string>,
    hostKernel: Option<string>,
    hostCpuModel: Option<string>,
    hostCpuCount: Option<int>,
    hostMemoryBytes: Option<int>,
    hostAccelerator: Option<string>,
    hostAcceleratorDriver: Option<string>,
    deviceUptimeSeconds: Option<int>,
    thermalThrottling: Option<int>,
    bspVersion: Option<string>,
    sumdDriverVersion: Option<string>,
    gpuClockMhz: Option<int>,
    mifClockMhz: Option<int>,
    intClockMhz: Option<int>,
    batteryCharging: Option<int>,
    initialTemperature: Option<real>,
    maxTemperature: Option<real>)

  datatype Rule = OutOfRange | MustBeNull | Required | AllTogether

  /** The request fields that an error can name. */
  datatype Field =
    | HostOsField | HostKernelField | HostCpuModelField | HostCpuCountField | HostMemoryBytesField | HostAcceleratorField
    | DeviceUptimeSecondsField | ThermalThrottlingField | BspVersionField | SumdDriverVersionField | GpuClockMhzField
    | MifClockMhzField | IntClockMhzField | BatteryChargingField | InitialTemperatureCelsiusField | MaxTemperatureCelsiusField

  /** A validation failure naming the field it concerns. */
  datatype FieldError = FieldError(field: Field, rule: Rule)

  // ----- Validation ---------------------------------------------------------

  function Check(ok: bool, field: Field, rule: Rule): Outcome<FieldError> {
    if ok then Pass else Fail(FieldError(field, rule))
  }

  function NeedSome<T>(field: Field, value: Option<T>): Result<T, FieldError> {
    match value
    case Some(v) => Ok(v)
    case None => Err(FieldError(field, Required))
  }

  predicate PositiveOrNull(v: Option<int>) { v.Some? ==> v.value > 0 }

  predicate NonNegativeOrNull(v: Option<int>) { v.Some? ==> v.value >= 0 }

  predicate TemperatureOrNull(v: Option<real>) { v.Some? ==> -40.0 <= v.value <= 150.0 }

  /** The first field whose value is out of range. */
  function CheckRanges(i: HostInput): Outcome<FieldError> {
    if !PositiveOrNull(i.gpuClockMhz) then Fail(FieldError(GpuClockMhzField, OutOfRange))
    else if !PositiveOrNull(i.mifClockMhz) then Fail(FieldError(MifClockMhzField, OutOfRange))
    else if !PositiveOrNull(i.intClockMhz) then Fail(FieldError(IntClockMhzField, OutOfRange))
    else if !TemperatureOrNull(i.initialTemperature) then Fail(FieldError(InitialTemperatureCelsiusField, OutOfRange))
    else if !TemperatureOrNull(i.maxTemperature) then Fail(FieldError(MaxTemperatureCelsiusField, OutOfRange))
    else if !NonNegativeOrNull(i.deviceUptimeSeconds) then Fail(FieldError(DeviceUptimeSecondsField, OutOfRange))
    else if !PositiveOrNull(i.hostCpuCount) then Fail(FieldError(HostCpuCountField, OutOfRange))
    else Check(NonNegativeOrNull(i.hostMemoryBytes), HostMemoryBytesField, OutOfRange)
  }

  function LinuxState(i: HostInput): Result<HostState, FieldError> {
    var first := Check(i.bspVersion.None?, BspVersionField, MustBeNull);
    :- first;
    :- Check(i.sumdDriverVersion.None?, SumdDriverVersionField, MustBeNull);
    :- Check(i.gpuClockMhz.None?, GpuClockMhzField, MustBeNull);
    :- Check(i.mifClockMhz.None?, MifClockMhzField, MustBeNull);
    :- Check(i.intClockMhz.None?, IntClockMhzField, MustBeNull);
    :- Check(i.batteryCharging.None?, BatteryChargingField, MustBeNull);
    :- Check(i.initialTemperature.None?, InitialTemperatureCelsiusField, MustBeNull);
    :- Check(i.maxTemperature.None?, MaxTemperatureCelsiusField, MustBeNull);
    var os :- NeedSome(HostOsField, i.hostOs);
    var kernel :- NeedSome(HostKernelField, i.hostKernel);
    var cpuModel :- NeedSome(HostCpuModelField, i.hostCpuModel);
    var accelerator :- NeedSome(HostAcceleratorField, i.hostAccelerator);
    Ok(OnLinux(LinuxHostState(os, kernel, cpuModel, i.hostCpuCount, i.hostMemoryBytes, accelerator,
      i.hostAcceleratorDriver, i.deviceUptimeSeconds, i.thermalThrottling)))
  }

  function LabFields(i: HostInput): seq<(Field, bool)> {
    [(BspVersionField, i.bspVersion.Some?), (SumdDriverVersionField, i.sumdDriverVersion.Some?),
     (GpuClockMhzField, i.gpuClockMhz.Some?), (MifClockMhzField, i.mifClockMhz.Some?),
     (IntClockMhzField, i.intClockMhz.Some?)]
  }

  function FirstMissing(fields: seq<(Field, bool)>): Field {
    if fields == [] then BspVersionField
    else if !fields[0].1 then fields[0].0
    else FirstMissing(fields[1..])
  }

  function LabOf(i: HostInput): Result<Option<AndroidLabConfig>, FieldError> {
    if i.bspVersion.Some? && i.sumdDriverVersion.Some? && i.gpuClockMhz.Some?
       && i.mifClockMhz.Some? && i.intClockMhz.Some? then
      Ok(Some(AndroidLabConfig(i.bspVersion.value, i.sumdDriverVersion.value,
        i.gpuClockMhz.value, i.mifClockMhz.value, i.intClockMhz.value)))
    else if i.bspVersion.None? && i.sumdDriverVersion.None? && i.gpuClockMhz.None?
       && i.mifClockMhz.None? && i.intClockMhz.None? then
      Ok(None)
    else Err(FieldError(FirstMissing(LabFields(i)), AllTogether))
  }

  function AndroidState(i: HostInput, deviceClass: DeviceClass): Result<HostState, FieldError> {
    var lab :- LabOf(i);
    var state := AndroidDeviceState(i.hostOs, i.hostKernel, i.hostCpuModel, i.hostCpuCount, i.hostMemoryBytes,
      i.hostAccelerator, i.hostAcceleratorDriver, i.deviceUptimeSeconds, i.batteryCharging,
      i.initialTemperature, i.maxTemperature, i.thermalThrottling, lab);
    if deviceClass.External? then Ok(OnAndroid(state))
    else
      :- Check(lab.Some?, FirstMissing(LabFields(i)), Required);
      :- Check(state.uptimeSeconds.Some?, DeviceUptimeSecondsField, Required);
      :- Check(state.batteryCharging.Some?, BatteryChargingField, Required);
      :- Check(state.initialTemperature.Some?, InitialTemperatureCelsiusField, Required);
      :- Check(state.maxTemperature.Some?, MaxTemperatureCelsiusField, Required);
      :- Check(state.thermalThrottling.Some?, ThermalThrottlingField, Required);
      Ok(OnAndroid(state))
  }

  /** Builds the platform's snapshot, or names the first field that breaks a rule. */
  function HostStateOf(i: HostInput, platform: Platform, deviceClass: DeviceClass): Result<HostState, FieldError> {
    var ranges := CheckRanges(i);
    :- ranges;
    match platform
    case Linux => LinuxState(i)
    case Android => AndroidState(i, deviceClass)
  }

  // ----- Storage ------------------------------------------------------------

  function Flag(b: Option<bool>): Option<int> {
    match b
    case Some(v) => Some(if v then 1 else 0)
    case None => None
  }

  function Unflag(v: Option<int>): Option<bool> {
    match v
    case Some(n) => Some(n != 0)
    case None => None
  }

  /** The host columns an insert binds. */
  function ColumnsOf(h: HostState): HostColumns {
    match h
    case OnAndroid(a) =>
      HostColumns(a.os, a.kernel, a.soc, a.cpuCount, a.memoryBytes, a.gpu, a.gpuDriver,
        a.uptimeSeconds, Flag(a.thermalThrottling),
        if a.lab.Some? then Some(a.lab.value.bspVersion) else None,
        if a.lab.Some? then Some(a.lab.value.sumdDriverVersion) else None,
        if a.lab.Some? then Some(a.lab.value.gpuClockMhz) else None,
        if a.lab.Some? then Some(a.lab.value.mifClockMhz) else None,
        if a.lab.Some? then Some(a.lab.value.intClockMhz) else None,
        Flag(a.batteryCharging), a.initialTemperature, a.maxTemperature)
    case OnLinux(l) =>
      HostColumns(Some(l.os), Some(l.kernel), Some(l.cpuModel), l.cpuCount, l.memoryBytes,
        Some(l.accelerator), l.acceleratorDriver, l.uptimeSeconds, Flag(l.thermalThrottling),
        None, None, None, None, None, None, None, None)
  }

  function HostStateFromRow(platform: Platform, c: HostColumns): Result<HostState, FieldError> {
    match platform
    case Android =>
      var lab :-
        if c.bspVersion.None? then Ok(None)
        else
          var sumd :- NeedSome(SumdDriverVersionField, c.sumdDriverVersion);
          var gpu :- NeedSome(GpuClockMhzField, c.gpuClockMhz);
          var mif :- NeedSome(MifClockMhzField, c.mifClockMhz);
          var int_ :- NeedSome(IntClockMhzField, c.intClockMhz);
          Ok(Some(AndroidLabConfig(c.bspVersion.value, sumd, gpu, mif, int_)));
      Ok(OnAndroid(AndroidDeviceState(c.hostOs, c.hostKernel, c.hostCpuModel, c.hostCpuCount, c.hostMemoryBytes,
        c.hostAccelerator, c.hostAcceleratorDriver, c.deviceUptimeSeconds, Unflag(c.batteryCharging),
        c.initialTemperature, c.maxTemperature, Unflag(c.thermalThrottling), lab)))
    case Linux =>
      var os :- NeedSome(HostOsField, c.hostOs);
      var kernel :- NeedSome(HostKernelField, c.hostKernel);
      var cpuModel :- NeedSome(HostCpuModelField, c.hostCpuModel);
      var accelerator :- NeedSome(HostAcceleratorField, c.hostAccelerator);
      Ok(OnLinux(LinuxHostState(os, kernel, cpuModel, c.hostCpuCount, c.hostMemoryBytes, accelerator,
        c.hostAcceleratorDriver, c.deviceUptimeSeconds, Unflag(c.thermalThrottling))))
  }

  /** `insert_run` refuses an internal phone without the full snapshot. */
  predicate InsertGuardFires(h: HostState, deviceClass: DeviceClass) {
    deviceClass.Internal? && h.OnAndroid? && !h.android.IsCompleteLabSnapshot()
  }

  predicate FlagOrNull(v: Option<int>) { v.Some? ==> v.value == 0 || v.value == 1 }

  /** The CHECK constraints of the `runs` table on the host columns. */
  predicate TableCheck(platform: Platform, deviceClass: DeviceClass, c: HostColumns) {
    var noLab := c.bspVersion.None? && c.sumdDriverVersion.None? && c.gpuClockMhz.None?
      && c.mifClockMhz.None? && c.intClockMhz.None?;
    var fullLab := c.bspVersion.Some? && c.sumdDriverVersion.Some? && c.gpuClockMhz.Some?
      && c.mifClockMhz.Some? && c.intClockMhz.Some?;
    && NonNegativeOrNull(c.deviceUptimeSeconds)
    && FlagOrNull(c.thermalThrottling) && FlagOrNull(c.batteryCharging)
    && TemperatureOrNull(c.initialTemperature) && TemperatureOrNull(c.maxTemperature)
    && PositiveOrNull(c.gpuClockMhz) && PositiveOrNull(c.mifClockMhz) && PositiveOrNull(c.intClockMhz)
    && PositiveOrNull(c.hostCpuCount) && NonNegativeOrNull(c.hostMemoryBytes)
    && match platform
       case Linux =>
         c.hostOs.Some? && c.hostKernel.Some? && c.hostCpuModel.Some? && c.hostAccelerator.Some?
         && noLab && c.batteryCharging.None? && c.initialTemperature.None? && c.maxTemperature.None?
       case Android =>
         if deviceClass.Internal? then
           fullLab && c.deviceUptimeSeconds.Some? && c.batteryCharging.Some? && c.initialTemperature.Some?
           && c.maxTemperature.Some? && c.thermalThrottling.Some?
         else noLab || fullLab
  }

  /** The caller's fields in column form. */
  function InputColumns(i: HostInput): HostColumns {
    HostColumns(i.hostOs, i.hostKernel, i.hostCpuModel, i.hostCpuCount, i.hostMemoryBytes, i.hostAccelerator,
      i.hostAcceleratorDriver, i.deviceUptimeSeconds, Flag(i.thermalThrottling), i.bspVersion,
      i.sumdDriverVersion, i.gpuClockMhz, i.mifClockMhz, i.intClockMhz, Flag(i.batteryCharging),
      i.initialTemperature, i.maxTemperature)
  }

  // ----- Main results -------------------------------------------------------

  /** Reading back the columns written for any snapshot returns it. */
  lemma SnapshotsRoundTrip(h: HostState)
    ensures HostStateFromRow(h.PlatformOf(), ColumnsOf(h)) == Ok(h)
  {
    match h
    case OnAndroid(a) => assert Unflag(Flag(a.thermalThrottling)) == a.thermalThrottling;
    case OnLinux(l) => assert Unflag(Flag(l.thermalThrottling)) == l.thermalThrottling;
  }

  /** Every row the table can hold reads back to a snapshot, which writes the
      same columns again. */
  lemma StoredRowsRoundTrip(platform: Platform, deviceClass: DeviceClass, c: HostColumns)
    requires TableCheck(platform, deviceClass, c)
    ensures
      var h := HostStateFromRow(platform, c);
      h.Ok? && h.value.PlatformOf() == platform && ColumnsOf(h.value) == c
  {
    assert Flag(Unflag(c.thermalThrottling)) == c.thermalThrottling;
    assert Flag(Unflag(c.batteryCharging)) == c.batteryCharging;
  }

  /** Validation and the table agree: an input is accepted if and only if the
      table's CHECK accepts its columns. */
  lemma AcceptedIffTableAccepts(i: HostInput, platform: Platform, deviceClass: DeviceClass)
    ensures HostStateOf(i, platform, deviceClass).Ok? <==> TableCheck(platform, deviceClass, InputColumns(i))
  {
    assert CheckRanges(i).Pass? <==>
      && PositiveOrNull(i.gpuClockMhz) && PositiveOrNull(i.mifClockMhz) && PositiveOrNull(i.intClockMhz)
      && TemperatureOrNull(i.initialTemperature) && TemperatureOrNull(i.maxTemperature)
      && NonNegativeOrNull(i.deviceUptimeSeconds) && PositiveOrNull(i.hostCpuCount)
      && NonNegativeOrNull(i.hostMemoryBytes);
  }

  /** What an accepted input stores is exactly what the caller said, and the
      insert-time guard never fires on it. */
  lemma AcceptedIsStoredVerbatim(i: HostInput, platform: Platform, deviceClass: DeviceClass)
    requires HostStateOf(i, platform, deviceClass).Ok?
    ensures
      var h := HostStateOf(i, platform, deviceClass).value;
      && h.PlatformOf() == platform
      && ColumnsOf(h) == InputColumns(i)
      && !InsertGuardFires(h, deviceClass)
  {
    match platform
    case Linux => assert HostStateOf(i, platform, deviceClass) == LinuxState(i);
    case Android => assert HostStateOf(i, platform, deviceClass) == AndroidState(i, deviceClass);
  }

  // ----- Rejections ---------------------------------------------------------

  /** Whether the caller left the named field out. */
  predicate IsMissing(i: HostInput, field: Field) {
    match field
    case HostOsField => i.hostOs.None?
    case HostKernelField => i.hostKernel.None?
    case HostCpuModelField => i.hostCpuModel.None?
    case HostAcceleratorField => i.hostAccelerator.None?
    case BspVersionField => i.bspVersion.None?
    case SumdDriverVersionField => i.sumdDriverVersion.None?
    case GpuClockMhzField => i.gpuClockMhz.None?
    case MifClockMhzField => i.mifClockMhz.None?
    case IntClockMhzField => i.intClockMhz.None?
    case DeviceUptimeSecondsField => i.deviceUptimeSeconds.None?
    case BatteryChargingField => i.batteryCharging.None?
    case InitialTemperatureCelsiusField => i.initialTemperature.None?
    case MaxTemperatureCelsiusField => i.maxTemperature.None?
    case ThermalThrottlingField => i.thermalThrottling.None?
    case _ => false
  }

  /** Whether the named field is set, and out of range. */
  predicate IsOutOfRange(i: HostInput, field: Field) {
    match field
    case GpuClockMhzField => !PositiveOrNull(i.gpuClockMhz)
    case MifClockMhzField => !PositiveOrNull(i.mifClockMhz)
    case IntClockMhzField => !PositiveOrNull(i.intClockMhz)
    case InitialTemperatureCelsiusField => !TemperatureOrNull(i.initialTemperature)
    case MaxTemperatureCelsiusField => !TemperatureOrNull(i.maxTemperature)
    case DeviceUptimeSecondsField => !NonNegativeOrNull(i.deviceUptimeSeconds)
    case HostCpuCountField => !PositiveOrNull(i.hostCpuCount)
    case HostMemoryBytesField => !NonNegativeOrNull(i.hostMemoryBytes)
    case _ => false
  }

  /** The fields that a run of this platform and device class has to have. */
  predicate Demands(platform: Platform, deviceClass: DeviceClass, field: Field) {
    match platform
    case Linux => field in {HostOsField, HostKernelField, HostCpuModelField, HostAcceleratorField}
    case Android =>
      && deviceClass.Internal?
      && field in {BspVersionField, SumdDriverVersionField, GpuClockMhzField, MifClockMhzField, IntClockMhzField,
                   DeviceUptimeSecondsField, BatteryChargingField, InitialTemperatureCelsiusField,
                   MaxTemperatureCelsiusField, ThermalThrottlingField}
  }

  /** The named field breaks the named rule. */
  predicate Breaks(i: HostInput, platform: Platform, deviceClass: DeviceClass, e: FieldError) {
    match e.rule
    case OutOfRange => IsOutOfRange(i, e.field)
    case MustBeNull => platform.Linux? && !IsMissing(i, e.field)
    case Required => Demands(platform, deviceClass, e.field) && IsMissing(i, e.field)
    case AllTogether => platform.Android? && IsMissing(i, e.field) && exists f :: f in LabFields(i) && f.1
  }

  lemma RangeErrorsAreTrue(i: HostInput)
    ensures CheckRanges(i).Fail? ==> CheckRanges(i).error.rule.OutOfRange? && IsOutOfRange(i, CheckRanges(i).error.field)
  {
  }

  lemma LinuxErrorsAreTrue(i: HostInput, deviceClass: DeviceClass)
    ensures LinuxState(i).Err? ==> Breaks(i, Linux, deviceClass, LinuxState(i).error)
  {
  }

  lemma {:induction false} FirstMissingIsListed(fields: seq<(Field, bool)>)
    ensures (exists f :: f in fields && !f.1) ==> (FirstMissing(fields), false) in fields
  {
    if fields != [] && fields[0].1 {
      FirstMissingIsListed(fields[1..]);
      forall f | f in fields && !f.1 ensures f in fields[1..] {
        assert f != fields[0];
      }
    }
  }

  lemma LabFieldsSayMissing(i: HostInput)
    ensures forall f :: f in LabFields(i) ==> f.1 == !IsMissing(i, f.0)
    ensures LabOf(i).Err? ==> (exists f :: f in LabFields(i) && !f.1) && (exists f :: f in LabFields(i) && f.1)
    ensures LabOf(i) == Ok(None) ==> exists f :: f in LabFields(i) && !f.1
  {
    var fields := LabFields(i);
    assert fields[0] in fields && fields[1] in fields && fields[2] in fields && fields[3] in fields && fields[4] in fields;
  }

  lemma AndroidErrorsAreTrue(i: HostInput, deviceClass: DeviceClass)
    ensures AndroidState(i, deviceClass).Err? ==> Breaks(i, Android, deviceClass, AndroidState(i, deviceClass).error)
  {
    LabFieldsSayMissing(i);
    FirstMissingIsListed(LabFields(i));
  }

  /** A rejection names a field that really breaks the rule it names; a field it
      requires is one that the platform and class demand. */
  lemma RejectionsAreTrue(i: HostInput, platform: Platform, deviceClass: DeviceClass)
    requires HostStateOf(i, platform, deviceClass).Err?
    ensures Breaks(i, platform, deviceClass, HostStateOf(i, platform, deviceClass).error)
  {
    RangeErrorsAreTrue(i);
    LinuxErrorsAreTrue(i, deviceClass);
    AndroidErrorsAreTrue(i, deviceClass);
  }

  // ----- The rules, field by field ------------------------------------------

  predicate HasNoLab(i: HostInput) {
    i.bspVersion.None? && i.sumdDriverVersion.None? && i.gpuClockMhz.None? && i.mifClockMhz.None? && i.intClockMhz.None?
  }

  predicate HasWholeLab(i: HostInput) {
    i.bspVersion.Some? && i.sumdDriverVersion.Some? && i.gpuClockMhz.Some? && i.mifClockMhz.Some? && i.intClockMhz.Some?
  }

  predicate InRange(i: HostInput) {
    && (i.gpuClockMhz.Some? ==> i.gpuClockMhz.value >= 1)
    && (i.mifClockMhz.Some? ==> i.mifClockMhz.value >= 1)
    && (i.intClockMhz.Some? ==> i.intClockMhz.value >= 1)
    && (i.hostCpuCount.Some? ==> i.hostCpuCount.value >= 1)
    && (i.hostMemoryBytes.Some? ==> i.hostMemoryBytes.value >= 0)
    && (i.deviceUptimeSeconds.Some? ==> i.deviceUptimeSeconds.value >= 0)
    && (i.initialTemperature.Some? ==> -40.0 <= i.initialTemperature.value <= 150.0)
    && (i.maxTemperature.Some? ==> -40.0 <= i.maxTemperature.value <= 150.0)
  }

  /** Which inputs are accepted, field by field. */
  lemma AcceptedMeans(i: HostInput, platform: Platform, deviceClass: DeviceClass)
    ensures HostStateOf(i, platform, deviceClass).Ok? <==>
      && InRange(i)
      && (platform == Linux ==>
            && HasNoLab(i) && i.batteryCharging.None? && i.initialTemperature.None? && i.maxTemperature.None?
            && i.hostOs.Some? && i.hostKernel.Some? && i.hostCpuModel.Some? && i.hostAccelerator.Some?)
      && (platform == Android ==> HasNoLab(i) || HasWholeLab(i))
      && (platform == Android && deviceClass == Internal ==>
            && HasWholeLab(i) && i.deviceUptimeSeconds.Some? && i.batteryCharging.Some?
            && i.initialTemperature.Some? && i.maxTemperature.Some? && i.thermalThrottling.Some?)
  {
    AcceptedIffTableAccepts(i, platform, deviceClass);
  }

  /** A flag is stored as 0 or 1, and an absent one as NULL. */
  predicate IsFlagOf(column: Option<int>, flag: Option<bool>) {
    match flag
    case Some(true) => column == Some(1)
    case Some(false) => column == Some(0)
    case None => column == None
  }

  /** Where an accepted input's fields are stored. */
  lemma StoredColumnsAre(i: HostInput, platform: Platform, deviceClass: DeviceClass)
    requires HostStateOf(i, platform, deviceClass).Ok?
    ensures
      var c := ColumnsOf(HostStateOf(i, platform, deviceClass).value);
      && c.hostOs == i.hostOs && c.hostKernel == i.hostKernel && c.hostCpuModel == i.hostCpuModel
      && c.hostCpuCount == i.hostCpuCount && c.hostMemoryBytes == i.hostMemoryBytes
      && c.hostAccelerator == i.hostAccelerator && c.hostAcceleratorDriver == i.hostAcceleratorDriver
      && c.deviceUptimeSeconds == i.deviceUptimeSeconds && IsFlagOf(c.thermalThrottling, i.thermalThrottling)
      && c.bspVersion == i.bspVersion && c.sumdDriverVersion == i.sumdDriverVersion
      && c.gpuClockMhz == i.gpuClockMhz && c.mifClockMhz == i.mifClockMhz && c.intClockMhz == i.intClockMhz
      && IsFlagOf(c.batteryCharging, i.batteryCharging)
      && c.initialTemperature == i.initialTemperature && c.maxTemperature == i.maxTemperature
  {
    AcceptedIsStoredVerbatim(i, platform, deviceClass);
  }

  /** The insert is refused exactly for an internal phone with one of ten columns
      missing. */
  lemma GuardMeans(h: HostState, deviceClass: DeviceClass)
    ensures
      var c := ColumnsOf(h);
      InsertGuardFires(h, deviceClass) <==>
        && deviceClass == Internal && h.PlatformOf() == Android
        && (c.bspVersion.None? || c.sumdDriverVersion.None? || c.gpuClockMhz.None? || c.mifClockMhz.None?
            || c.intClockMhz.None? || c.deviceUptimeSeconds.None? || c.batteryCharging.None?
            || c.initialTemperature.None? || c.maxTemperature.None? || c.thermalThrottling.None?)
  {
  }
}
