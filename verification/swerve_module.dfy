/** One swerve wheel module: its fixed identity (name, motor channels,
    mechanical steering offset) and the bookkeeping state the drive code
    itself changes: the drive motor's inversion flag, the drive encoder's
    position, and the last state requested of the module.

    The motors, encoders and controllers are vendor devices; what they do
    with a request (the 90-degree optimisation, the PID loops) is not part of
    this model. The absolute steering sensor is read, never written. */
module SwerveModules {

  /** A requested or measured wheel state: speed in metres per second and
      heading in radians. */
  datatype ModuleState = ModuleState(speed: real, angle: real)

  /** The last state handed to `setDesiredState`, if any. */
  datatype Request = NoRequest | Requested(state: ModuleState)

  /** The constructor's arguments. */
  datatype ModuleConfig = ModuleConfig(
    id: string,
    driveChannel: int,
    turningChannel: int,
    driveEncoderReversed: bool,
    offset: real)

  /** What the hardware holds before the constructor runs: the drive
      encoder's count, the drive motor's inversion setting, and the absolute
      steering sensor's reading. */
  datatype PowerOn = PowerOn(drivePosition: real, driveInverted: bool, steerPosition: real)

  datatype SwerveModule = SwerveModule(
    id: string,
    driveChannel: int,
    turningChannel: int,
    offset: real,
    driveInverted: bool,
    drivePosition: real,
    steerPosition: real,
    request: Request)

  /** The parts of a module that are fixed once it is built. The steering
      reading is not one of them: the wheel turns between calls. */
  predicate SameHardware(a: SwerveModule, b: SwerveModule)
  {
    && a.id == b.id
    && a.driveChannel == b.driveChannel
    && a.turningChannel == b.turningChannel
    && a.offset == b.offset
  }

  /** What the constructor leaves behind for `config` on hardware `hw`: the
      configured name, channels and offset, a zero drive position, the drive
      motor inverted exactly when `driveEncoderReversed` is set, the steering
      reading the hardware had, and no request yet. */
  predicate BuiltFrom(m: SwerveModule, config: ModuleConfig, hw: PowerOn)
  {
    && m.id == config.id
    && m.driveChannel == config.driveChannel
    && m.turningChannel == config.turningChannel
    && m.offset == config.offset
    && m.driveInverted == config.driveEncoderReversed
    && m.drivePosition == 0.0
    && m.steerPosition == hw.steerPosition
    && m.request == NoRequest
  }

  /** `resetEncoders`: zero the drive encoder. Zeroing the steering sensor is
      commented out in the source, so the steering reading is not written. */
  function ResetEncoders(m: SwerveModule): (r: SwerveModule)
    ensures r.drivePosition == 0.0
    ensures r.(drivePosition := m.drivePosition) == m
  {
    m.(drivePosition := 0.0)
  }

  /** `m_driveMotor.setInverted(b)`. */
  function SetInverted(m: SwerveModule, inverted: bool): (r: SwerveModule)
    ensures r.driveInverted == inverted
    ensures r.(driveInverted := m.driveInverted) == m
  {
    m.(driveInverted := inverted)
  }

  /** `invertDrive`: read the drive motor's inversion and set its opposite. */
  function InvertDrive(m: SwerveModule): (r: SwerveModule)
    ensures r.driveInverted == !m.driveInverted
    ensures r.(driveInverted := m.driveInverted) == m
  {
    if m.driveInverted then SetInverted(m, false) else SetInverted(m, true)
  }

  /** `setDesiredState`, as far as this model goes: the module takes the
      requested state; the motor outputs computed from it are not modelled. */
  function SetDesiredState(m: SwerveModule, desired: ModuleState): (r: SwerveModule)
    ensures r.request == Requested(desired)
    ensures r.(request := m.request) == m
  {
    m.(request := Requested(desired))
  }

  /** The constructor: record the name and offset, zero the drive encoder
      (once while configuring the motors and once more through
      `resetEncoders`), then set the drive motor's inversion from
      `driveEncoderReversed`. Whatever the hardware held before, the new
      module has the configured identity, a zero drive position and the
      configured inversion; only the steering reading is taken over. */
  function New(config: ModuleConfig, hw: PowerOn): (r: SwerveModule)
    ensures BuiltFrom(r, config, hw)
  {
    var raw := SwerveModule(config.id, config.driveChannel, config.turningChannel, config.offset,
                            hw.driveInverted, hw.drivePosition, hw.steerPosition, NoRequest);
    var configured := raw.(drivePosition := 0.0);
    SetInverted(ResetEncoders(configured), config.driveEncoderReversed)
  }

  /** `BuiltFrom` pins a module down completely: the constructor's result is
      the only module it admits. */
  lemma BuiltFromUnique(m: SwerveModule, config: ModuleConfig, hw: PowerOn)
    requires BuiltFrom(m, config, hw)
    ensures m == New(config, hw)
  {
  }

  /** Two modules built from the same configuration differ at most in their
      steering readings: the drive encoder and the inversion the hardware
      held before do not survive construction. */
  lemma NewForgetsPowerOnState(config: ModuleConfig, hw1: PowerOn, hw2: PowerOn)
    requires hw1.steerPosition == hw2.steerPosition
    ensures New(config, hw1) == New(config, hw2)
  {
  }

  /** Inverting twice restores the module. */
  lemma InvertDriveTwice(m: SwerveModule)
    ensures InvertDrive(InvertDrive(m)) == m
  {
  }

  /** Resetting twice is resetting once, and resetting commutes with
      inverting. */
  lemma ResetEncodersIdempotent(m: SwerveModule)
    ensures ResetEncoders(ResetEncoders(m)) == ResetEncoders(m)
    ensures ResetEncoders(InvertDrive(m)) == InvertDrive(ResetEncoders(m))
  {
  }

  /** The operations the drive code applies to a module. */
  datatype ModuleOp = Reset | Invert | SetDesired(desired: ModuleState)

  function Apply(m: SwerveModule, op: ModuleOp): SwerveModule
  {
    match op
    case Reset => ResetEncoders(m)
    case Invert => InvertDrive(m)
    case SetDesired(desired) => SetDesiredState(m, desired)
  }

  /** A sequence of operations, applied left to right. */
  function RunOps(m: SwerveModule, ops: seq<ModuleOp>): SwerveModule
    decreases |ops|
  {
    if ops == [] then m else RunOps(Apply(m, ops[0]), ops[1..])
  }

  /** Whether `ops` holds an odd number of `Invert`s. */
  function OddInverts(ops: seq<ModuleOp>): bool
    decreases |ops|
  {
    if ops == [] then false
    else (ops[0] == Invert) != OddInverts(ops[1..])
  }

  /** No sequence of operations changes a module's identity or offset, and the drive motor ends up inverted relative to its
      start exactly when the sequence inverts an odd number of times. */
  lemma {:induction false} RunOpsKeepsHardware(m: SwerveModule, ops: seq<ModuleOp>)
    ensures SameHardware(RunOps(m, ops), m)
    ensures RunOps(m, ops).driveInverted == (m.driveInverted != OddInverts(ops))
    decreases |ops|
  {
    if ops != [] {
      RunOpsKeepsHardware(Apply(m, ops[0]), ops[1..]);
    }
  }
}
