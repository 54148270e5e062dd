/** The stable enumerations of a run, in their declared order. */
module Domain {
  datatype Platform = Android | Linux

  datatype DeviceClass = Internal | External

  datatype ExitStatus = Succeeded | Crashed | TimedOut | Cancelled | InfrastructureError

  datatype CorrectnessResult = Passed | Failed | NotChecked | ValidatorError

  /** Identifiers and digests in their canonical text form. */
  type Uuid = string
  type Sha256Hex = string
}
