/** The drive subsystem: four swerve modules, the speed-level state, and the
    heading reported from the gyro.

    The kinematics that turn a chassis speed into four module states, the
    wheel-speed normalisation and the odometry are library calls; this module
    models what the subsystem itself decides: which module gets which state,
    which module the odometry reads where, the fan-out of `invertDrive` and
    `resetEncoders`, and the arithmetic of `getHeading`. */
module DriveSubsystem {
  import opened JavaArith
  import opened SpeedScaler
  import opened SwerveModules

  /** The four corners of the chassis. */
  datatype Corner = FrontLeft | FrontRight | RearLeft | RearRight

  datatype DriveState = DriveState(
    frontLeft: SwerveModule,
    rearLeft: SwerveModule,
    frontRight: SwerveModule,
    rearRight: SwerveModule,
    speed: SpeedState)

  function ModuleAt(d: DriveState, c: Corner): SwerveModule
  {
    match c
    case FrontLeft => d.frontLeft
    case FrontRight => d.frontRight
    case RearLeft => d.rearLeft
    case RearRight => d.rearRight
  }

  /** The corner that `drive` and `setModuleStates` send state index i to. */
  const DispatchOrder: seq<Corner> := [FrontLeft, FrontRight, RearLeft, RearRight]

  /** The corner whose state `periodic` hands to the odometry in argument
      position i. */
  const OdometryOrder: seq<Corner> := [RearLeft, FrontLeft, RearRight, FrontRight]

  /** Each corner exactly once. */
  predicate IsCornerOrder(order: seq<Corner>)
  {
    && |order| == 4
    && (forall c: Corner :: c in order)
    && (forall i, j :: 0 <= i < j < |order| ==> order[i] != order[j])
  }

  /** Both orders name each corner once, and they disagree at every
      position: whichever corner a state index is sent to, the odometry reads
      a different corner at that index. */
  lemma OrdersDisagreeEverywhere()
    ensures IsCornerOrder(DispatchOrder) && IsCornerOrder(OdometryOrder)
    ensures forall i :: 0 <= i < 4 ==> OdometryOrder[i] != DispatchOrder[i]
  {
    forall c: Corner
      ensures c in DispatchOrder && c in OdometryOrder
    {
      match c
      case FrontLeft => assert DispatchOrder[0] == c && OdometryOrder[1] == c;
      case FrontRight => assert DispatchOrder[1] == c && OdometryOrder[3] == c;
      case RearLeft => assert DispatchOrder[2] == c && OdometryOrder[0] == c;
      case RearRight => assert DispatchOrder[3] == c && OdometryOrder[2] == c;
    }
  }

  // ---------------------------------------------------------------------
  // Construction

  /** The constructor: the four modules in field order (front left, rear
      left, front right, rear right) and the speed state at level 4,
      coefficient 10. The module arguments come from constants that are not
      part of this model, so they are parameters here. */
  function New(fl: ModuleConfig, rl: ModuleConfig, fr: ModuleConfig, rr: ModuleConfig,
               flHw: PowerOn, rlHw: PowerOn, frHw: PowerOn, rrHw: PowerOn): (d: DriveState)
    ensures Valid(d.speed) && d.speed.level == 4 && d.speed.coeff == 10
    ensures BuiltFrom(d.frontLeft, fl, flHw) && BuiltFrom(d.rearLeft, rl, rlHw)
    ensures BuiltFrom(d.frontRight, fr, frHw) && BuiltFrom(d.rearRight, rr, rrHw)
  {
    DriveState(SwerveModules.New(fl, flHw), SwerveModules.New(rl, rlHw),
               SwerveModules.New(fr, frHw), SwerveModules.New(rr, rrHw), Init())
  }

  // ---------------------------------------------------------------------
  // Speed level

  /** `increaseSpeed`: only the speed state changes. */
  function IncreaseSpeed(d: DriveState): (r: DriveState)
    ensures Valid(d.speed) ==> Valid(r.speed)
    ensures r.(speed := d.speed) == d
  {
    d.(speed := Increase(d.speed))
  }

  /** `decreaseSpeed`: only the speed state changes. */
  function DecreaseSpeed(d: DriveState): (r: DriveState)
    ensures Valid(d.speed) ==> Valid(r.speed)
    ensures 0 <= r.speed.level < Levels
    ensures r.(speed := d.speed) == d
  {
    d.(speed := Decrease(d.speed))
  }

  /** `getSpeedCoeff`. */
  function GetSpeedCoeff(d: DriveState): (c: int)
    ensures Valid(d.speed) ==> c == CoefficientOf(d.speed.level)
  {
    SpeedCoeff(d.speed)
  }

  /** On a valid speed state `decreaseSpeed` undoes `increaseSpeed` and the
      other way round, leaving the whole subsystem as it was. */
  lemma SpeedStepsInverse(d: DriveState)
    requires Valid(d.speed)
    ensures DecreaseSpeed(IncreaseSpeed(d)) == d
    ensures IncreaseSpeed(DecreaseSpeed(d)) == d
  {

  }

  // ---------------------------------------------------------------------
  // Heading

  /** `getHeading`: the gyro angle in degrees, cast to `long` (truncation
      toward zero) and reduced with `Math.floorMod(_, 360)`. The result lies
      in [0, 360), whatever the method's doc comment says about -180..180. */
  function GetHeading(rawDegrees: real): (h: int)
    ensures 0 <= h < 360
    ensures (LongCast(rawDegrees) - h) % 360 == 0
  {
    FloorMod(LongCast(rawDegrees), 360)
  }

  /** The heading is THE value in [0, 360) congruent to the truncated angle:
      any such value equals it. */
  lemma HeadingUnique(rawDegrees: real, h: int)
    requires 0 <= h < 360 && (LongCast(rawDegrees) - h) % 360 == 0
    ensures GetHeading(rawDegrees) == h
  {

  }

  /** On whole angles in [0, 360) the heading is the angle itself, and a
      heading fed back in as an angle comes out unchanged. */
  lemma HeadingIdentityOnRange(n: int, rawDegrees: real)
    requires 0 <= n < 360
    ensures GetHeading(n as real) == n
    ensures GetHeading(GetHeading(rawDegrees) as real) == GetHeading(rawDegrees)
  {

  }

  /** Worked values: -10 degrees reads 350, a fraction is cut toward zero
      before the reduction (-10.5 reads 350, -0.5 reads 0, 725.9 reads 5),
      and 270 reads 270, outside the -180..180 the doc comment promises. */
  lemma HeadingExamples()
    ensures GetHeading(-10.0) == 350
    ensures GetHeading(-10.5) == 350
    ensures GetHeading(-0.5) == 0
    ensures GetHeading(725.9) == 5
    ensures GetHeading(270.0) == 270 && GetHeading(270.0) > 180
  {

  }

  // ---------------------------------------------------------------------
  // Fan-out to the four modules

  /** `invertDrive`: every module's drive inversion flips; nothing else
      changes. */
  function InvertDriveAll(d: DriveState): (r: DriveState)
    ensures forall c :: ModuleAt(r, c).driveInverted == !ModuleAt(d, c).driveInverted
    ensures forall c :: ModuleAt(r, c).(driveInverted := ModuleAt(d, c).driveInverted) == ModuleAt(d, c)
    ensures r.speed == d.speed
  {
    var fl := InvertDrive(d.frontLeft);
    var fr := InvertDrive(d.frontRight);
    var rl := InvertDrive(d.rearLeft);
    var rr := InvertDrive(d.rearRight);
    DriveState(fl, rl, fr, rr, d.speed)
  }

  /** `resetEncoders`: every module's drive position is zero; nothing else
      is written, in particular no steering reading. */
  function ResetEncodersAll(d: DriveState): (r: DriveState)
    ensures forall c :: ModuleAt(r, c).drivePosition == 0.0
    ensures forall c :: ModuleAt(r, c).(drivePosition := ModuleAt(d, c).drivePosition) == ModuleAt(d, c)
    ensures r.speed == d.speed
  {
    var fl := ResetEncoders(d.frontLeft);
    var rl := ResetEncoders(d.rearLeft);
    var fr := ResetEncoders(d.frontRight);
    var rr := ResetEncoders(d.rearRight);
    DriveState(fl, rl, fr, rr, d.speed)
  }

  /** `invertDrive` twice is the identity; `resetEncoders` twice is
      `resetEncoders` once. */
  lemma FanOutAlgebra(d: DriveState)
    ensures InvertDriveAll(InvertDriveAll(d)) == d
    ensures ResetEncodersAll(ResetEncodersAll(d)) == ResetEncodersAll(d)
  {

  }

  /** The tail of `drive`: the four states the kinematics produced go to the
      front-left, front-right, rear-left and rear-right modules in that
      order. */
  function Drive(d: DriveState, states: seq<ModuleState>): (r: DriveState)
    requires |states| == 4
    ensures forall i :: 0 <= i < 4 ==> ModuleAt(r, DispatchOrder[i]).request == Requested(states[i])
    ensures forall c :: ModuleAt(r, c).(request := ModuleAt(d, c).request) == ModuleAt(d, c)
    ensures r.speed == d.speed
  {
    var d1 := d.(frontLeft := SetDesiredState(d.frontLeft, states[0]));
    var d2 := d1.(frontRight := SetDesiredState(d1.frontRight, states[1]));
    var d3 := d2.(rearLeft := SetDesiredState(d2.rearLeft, states[2]));
    d3.(rearRight := SetDesiredState(d3.rearRight, states[3]))
  }

  /** The outcome of `setModuleStates`: either all four modules received a
      state, or the array was too short and Java's bounds check stopped the
      method at index `missing`, after the modules before it had already
      received theirs. */
  datatype Dispatch = Dispatched(drive: DriveState) | Aborted(drive: DriveState, missing: nat)

  /** `setModuleStates`: index 0 to front left, 1 to front right, 2 to rear
      left, 3 to rear right, one after the other. No module receives an
      entry past index 3. */
  function SetModuleStates(d: DriveState, states: seq<ModuleState>): (r: Dispatch)
    ensures r.Aborted? <==> |states| < 4
    ensures r.Aborted? ==> r.missing == |states|
    ensures forall i :: 0 <= i < 4 ==>
              ModuleAt(r.drive, DispatchOrder[i]).request
                == if i < |states| then Requested(states[i]) else ModuleAt(d, DispatchOrder[i]).request
    ensures forall c :: ModuleAt(r.drive, c).(request := ModuleAt(d, c).request) == ModuleAt(d, c)
    ensures r.drive.speed == d.speed
  {
    if |states| <= 0 then Aborted(d, 0) else
    var d1 := d.(frontLeft := SetDesiredState(d.frontLeft, states[0]));
    if |states| <= 1 then Aborted(d1, 1) else
    var d2 := d1.(frontRight := SetDesiredState(d1.frontRight, states[1]));
    if |states| <= 2 then Aborted(d2, 2) else
    var d3 := d2.(rearLeft := SetDesiredState(d2.rearLeft, states[2]));
    if |states| <= 3 then Aborted(d3, 3) else
    Dispatched(d3.(rearRight := SetDesiredState(d3.rearRight, states[3])))
  }

  /** `drive` and `setModuleStates` use the same index-to-corner mapping: on
      four states they leave the subsystem in the same state. */
  lemma DriveMatchesSetModuleStates(d: DriveState, states: seq<ModuleState>)
    requires |states| == 4
    ensures SetModuleStates(d, states) == Dispatched(Drive(d, states))
  {
  }

  /** What `periodic` hands to the odometry: the heading and the four
      modules in the order rear left, front left, rear right, front right. */
  datatype OdometryInput = OdometryInput(heading: int, modules: seq<SwerveModule>)

  function Periodic(d: DriveState, rawDegrees: real): (r: OdometryInput)
    ensures r.heading == GetHeading(rawDegrees)
    ensures |r.modules| == 4
    ensures forall i :: 0 <= i < 4 ==> r.modules[i] == ModuleAt(d, OdometryOrder[i])
  {
    OdometryInput(GetHeading(rawDegrees), [d.rearLeft, d.frontLeft, d.rearRight, d.frontRight])
  }

  /** The state sent at index i by `drive` is not the state of the module the
      odometry reads at index i: after a `drive`, position i of the
      odometry's input carries the request sent at the index of its own
      corner in the dispatch order. */
  lemma OdometrySeesDispatchPermuted(d: DriveState, states: seq<ModuleState>, rawDegrees: real)
    requires |states| == 4
    ensures Periodic(Drive(d, states), rawDegrees).modules[0].request == Requested(states[2])
    ensures Periodic(Drive(d, states), rawDegrees).modules[1].request == Requested(states[0])
    ensures Periodic(Drive(d, states), rawDegrees).modules[2].request == Requested(states[3])
    ensures Periodic(Drive(d, states), rawDegrees).modules[3].request == Requested(states[1])
  {
  }

  // ---------------------------------------------------------------------
  // Whole-subsystem invariant

  /** The calls the rest of the robot makes on the subsystem. */
  datatype DriveOp =
    | SpeedUp
    | SpeedDown
    | InvertAll
    | ResetAll
    | DriveWith(s0: ModuleState, s1: ModuleState, s2: ModuleState, s3: ModuleState)
    | SetStates(states: seq<ModuleState>)

  function ApplyOp(d: DriveState, op: DriveOp): DriveState
  {
    match op
    case SpeedUp => IncreaseSpeed(d)
    case SpeedDown => DecreaseSpeed(d)
    case InvertAll => InvertDriveAll(d)
    case ResetAll => ResetEncodersAll(d)
    case DriveWith(s0, s1, s2, s3) => Drive(d, [s0, s1, s2, s3])
    case SetStates(states) => SetModuleStates(d, states).drive
  }

  function RunDriveOps(d: DriveState, ops: seq<DriveOp>): DriveState
    decreases |ops|
  {
    if ops == [] then d else RunDriveOps(ApplyOp(d, ops[0]), ops[1..])
  }

  /** Whether `ops` calls `invertDrive` an odd number of times. */
  function OddInvertAlls(ops: seq<DriveOp>): bool
    decreases |ops|
  {
    if ops == [] then false
    else (ops[0] == InvertAll) != OddInvertAlls(ops[1..])
  }

  /** One call keeps every corner's hardware, flips the drive inversions
      exactly on `invertDrive`, and keeps a valid speed state valid. */
  lemma ApplyOpStep(d: DriveState, op: DriveOp)
    ensures forall c :: SameHardware(ModuleAt(ApplyOp(d, op), c), ModuleAt(d, c))
    ensures forall c :: ModuleAt(ApplyOp(d, op), c).driveInverted
                          == (ModuleAt(d, c).driveInverted != (op == InvertAll))
    ensures Valid(d.speed) ==> Valid(ApplyOp(d, op).speed)
  {
  }

  /** Over any sequence of calls: each corner keeps its module's identity
      and offset; each drive motor is inverted relative to
      its start exactly when `invertDrive` was called an odd number of
      times; and a valid speed state stays valid. */
  lemma {:induction false} RunDriveOpsInvariant(d: DriveState, ops: seq<DriveOp>)
    ensures forall c :: SameHardware(ModuleAt(RunDriveOps(d, ops), c), ModuleAt(d, c))
    ensures forall c :: ModuleAt(RunDriveOps(d, ops), c).driveInverted
                          == (ModuleAt(d, c).driveInverted != OddInvertAlls(ops))
    ensures Valid(d.speed) ==> Valid(RunDriveOps(d, ops).speed)
    decreases |ops|
  {
    if ops != [] {
      var d' := ApplyOp(d, ops[0]);
      ApplyOpStep(d, ops[0]);
      RunDriveOpsInvariant(d', ops[1..]);
      assert RunDriveOps(d, ops) == RunDriveOps(d', ops[1..]);
      assert OddInvertAlls(ops) == ((ops[0] == InvertAll) != OddInvertAlls(ops[1..]));
    }
  }
}
