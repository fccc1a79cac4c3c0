/**
 * The fixed enumerations of the motor protocol: command codes, the status a motor
 * reports, its run modes and the addresses of its parameters. Each enumeration has a
 * `Value()` function giving the number the device uses for it.
 */
module Constants {
  import opened Wrappers

  /** The communication type carried in bits 24..28 of the extended CAN identifier. */
  datatype CommandType = GetDeviceId | Enable | Disable | ReadParam | WriteParam
  {
    /** The wire code; every code fits the 5-bit command field. */
    function Value(): (v: nat)
      ensures v < 32
    {
      match this
      case GetDeviceId => 0x00
      case Enable => 0x03
      case Disable => 0x04
      case ReadParam => 0x11
      case WriteParam => 0x12
    }
  }

  /** The state a motor reports in bits 22..23 of the identifier of its reply. */
  datatype MotorStatus = Reset | Calibration | Run | Unknown
  {
    function Value(): nat
    {
      match this
      case Reset => 0
      case Calibration => 1
      case Run => 2
      case Unknown => 99
    }
  }

  /** The control law a motor executes, as stored in its run-mode parameter. */
  datatype RunMode = Operation | PositionPP | Velocity | Current | PositionCSP
  {
    /** The stored value; every value fits the first byte of the parameter. */
    function Value(): (v: nat)
      ensures v < 0x100
    {
      match this
      case Operation => 0
      case PositionPP => 1
      case Velocity => 2
      case Current => 3
      case PositionCSP => 5
    }
  }

  /** The 16-bit addresses of the motor parameters the controller reads and writes. */
  datatype ParameterIndex =
    | RunModeIndex  // run mode
    | LocRef        // position reference
    | VelMax        // profile-position maximum velocity
    | AccSet        // profile-position acceleration
    | IqRef         // current reference
    | SpdRef        // velocity reference
    | LimitCur      // current limit
    | AccRad        // velocity-mode acceleration
    | LimitSpd      // cyclic-synchronous-position velocity limit
  {
    /** The address; every address fits the 16-bit index field of a payload. */
    function Value(): (v: nat)
      ensures 0x7000 <= v < 0x10000
    {
      match this
      case RunModeIndex => 0x7005
      case LocRef => 0x7016
      case VelMax => 0x7024
      case AccSet => 0x7025
      case IqRef => 0x7006
      case SpdRef => 0x700A
      case LimitCur => 0x7018
      case AccRad => 0x7022
      case LimitSpd => 0x7017
    }
  }

  /** No two command types share a code. */
  lemma CommandTypeValuesDistinct(a: CommandType, b: CommandType)
    ensures a.Value() == b.Value() ==> a == b
  {
  }

  /** No two run modes share a value, so a stored value names at most one mode. */
  lemma RunModeValuesDistinct(a: RunMode, b: RunMode)
    ensures a.Value() == b.Value() ==> a == b
  {
  }

  /** No two parameters share an address. */
  lemma ParameterIndexValuesDistinct(a: ParameterIndex, b: ParameterIndex)
    ensures a.Value() == b.Value() ==> a == b
  {
  }

  /** The enumeration lookup `MotorStatus(v)`: the member whose value is `v`, if there is one. */
  function MotorStatusOf(v: nat): (s: Option<MotorStatus>)
    ensures s.Some? ==> s.value.Value() == v
    ensures s.None? ==> v !in {0, 1, 2, 99}
  {
    if v == 0 then Some(Reset)
    else if v == 1 then Some(Calibration)
    else if v == 2 then Some(Run)
    else if v == 99 then Some(Unknown)
    else None
  }

  /**
   * The decoding `enable` applies to the status bits of a reply: the member with that value
   * if one exists, UNKNOWN otherwise.
   */
  function DecodeStatus(v: nat): (s: MotorStatus)
    ensures v < 3 ==> s.Value() == v
    ensures s != Unknown <==> v < 3
  {
    match MotorStatusOf(v)
    case Some(m) => m
    case None => Unknown
  }
}
