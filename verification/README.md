# Swerve drive subsystem bookkeeping, in Dafny

A model of the discrete part of a competition robot's swerve drive: the
`DriveSubsystem` that owns four `SwerveModule`s, a speed-level state machine
and the gyro heading, and the `SwerveModule`s themselves. The numerical work of
the drive (inverse kinematics, wheel-speed normalisation, steering
optimisation, PID control, odometry) happens inside library calls and is not
modelled; what is modelled is everything the subsystem itself decides:

- **Speed levels** (`speed_scaler.dfy`, module `SpeedScaler`). A level and a
  speed coefficient; `increaseSpeed`/`decreaseSpeed` look the new coefficient
  up in a switch keyed by the old level and then move the level by one modulo
  5 (`%` upward, `Math.floorMod` downward). The state starts at level 4,
  coefficient 10. The model proves the invariant `coeff == CoefficientOf(level)`
  for the table 1, 3, 6, 8, 10, that it survives any sequence of calls, that
  the two calls are mutual inverses, and that five calls either way come back
  to the start. Java `int` arithmetic is modelled exactly: the level is a
  public `int`, so the model also covers out-of-range levels, the wrap of
  `Integer.MAX_VALUE + 1`, and the switch leaving the coefficient alone for a
  level it does not list.
- **Heading** (`DriveSubsystem.GetHeading`). The gyro angle is cast to
  `long` (truncation toward zero, saturating at the ends of the `long` range)
  and reduced with `Math.floorMod(_, 360)`; the result is the unique value in
  [0, 360) congruent to the truncated angle.
- **Module bookkeeping** (`swerve_module.dfy`, module `SwerveModules`). Each
  module has a fixed name, motor channels and steering offset, a drive-motor
  inversion flag, a drive-encoder position, an absolute steering reading and
  the last requested state. Construction zeroes the drive encoder and sets
  the inversion from `driveEncoderReversed`; `invertDrive` flips the flag;
  `resetEncoders` zeroes the drive encoder only.
- **Fan-out** (`drive_subsystem.dfy`, module `DriveSubsystem`). `invertDrive` and
  `resetEncoders` apply to all four modules; `drive` and `setModuleStates`
  send state index i to front left, front right, rear left, rear right; a
  `setModuleStates` array shorter than four stops at the first missing index
  (Java's bounds check) after the earlier modules have their states;
  `periodic` hands the modules to the odometry in the order rear left, front
  left, rear right, front right, which differs from the dispatch order at
  every position.
- Java arithmetic helpers (`java_arith.dfy`, module `JavaArith`): `int`
  increment/decrement with wrap-around, the truncating remainder, `floorMod`
  and the `(long)` cast of a `double`.

Inputs the code reads from hardware or from constants not shown (motor
channels, offsets, encoder counts before construction, the gyro angle) are
parameters.

Two facts about the code that the model records rather than corrects:

- `speedCoeff` is a `static` field and `speedLevel` an instance field. The
  model keeps both in one record, which is right for the single drive
  subsystem a robot builds; `SpeedScaler.SharedCoefficientBreaksInvariant`
  shows that with two instances one instance's call puts the other off the
  invariant.
- The doc comment of `getHeading` says the result lies in -180..180. The code
  returns values in [0, 360); the model follows the code
  (`DriveSubsystem.HeadingExamples` shows 270 degrees read as 270).

## Model

| member | source | states |
|---|---|---|
| JavaArith.Increment32 | src/main/java/frc/team708/robot/subsystems/DriveSubsystem.java:73 | `speedLevel + 1` on a Java `int`: an `int` that agrees with the exact sum modulo 2^32, i.e. its low 32 bits read as two's complement |
| JavaArith.Decrement32 | src/main/java/frc/team708/robot/subsystems/DriveSubsystem.java:94 | `speedLevel - 1` on a Java `int`: an `int` that agrees with the exact difference modulo 2^32, i.e. its low 32 bits read as two's complement |
| JavaArith.JavaRem | src/main/java/frc/team708/robot/subsystems/DriveSubsystem.java:73 | Java `%` with a positive divisor: result has the sign of the dividend, magnitude below the divisor, and differs from the dividend by a multiple of the divisor |
| JavaArith.FloorMod | src/main/java/frc/team708/robot/subsystems/DriveSubsystem.java:94 | `Math.floorMod`, computed Java's way from the truncating remainder, lies in [0, b) and equals the Euclidean remainder |
| JavaArith.TruncateTowardZero | src/main/java/frc/team708/robot/subsystems/DriveSubsystem.java:184 | the `(long)` cast rounds toward zero: the result has the sign of the input and is within one of it, never beyond it |
| JavaArith.LongCast | src/main/java/frc/team708/robot/subsystems/DriveSubsystem.java:184 | the `(long)` cast is truncation inside the `long` range and saturates at either end |
| SpeedScaler.Init | src/main/java/frc/team708/robot/subsystems/DriveSubsystem.java:36-37 | the initial state, level 4 with coefficient 10, satisfies the invariant |
| SpeedScaler.Increase | src/main/java/frc/team708/robot/subsystems/DriveSubsystem.java:55-74 | `increaseSpeed` on an in-range level moves it up by one with 4 wrapping to 0 and sets the coefficient of the new level; an unlisted level keeps its coefficient; the new level is in [0, 5) for non-negative levels below the `int` maximum, in (-5, 0] for negative ones, and -3 at the `int` maximum |
| SpeedScaler.Decrease | src/main/java/frc/team708/robot/subsystems/DriveSubsystem.java:76-95 | `decreaseSpeed` always yields a level in [0, 5); on an in-range level it moves down by one with 0 wrapping to 4 and sets the coefficient of the new level; an unlisted level keeps its coefficient |
| SpeedScaler.SpeedCoeff | src/main/java/frc/team708/robot/subsystems/DriveSubsystem.java:51-53 | `getSpeedCoeff` on a valid state is the table coefficient of the current level, one of 1, 3, 6, 8, 10 |
| SpeedScaler.StepsPreserveValid | src/main/java/frc/team708/robot/subsystems/DriveSubsystem.java:55-95 | both calls keep the invariant `coeff == CoefficientOf(level)` with the level in [0, 5) |
| SpeedScaler.IncreaseDecreaseInverse | src/main/java/frc/team708/robot/subsystems/DriveSubsystem.java:55-95 | on valid states `decreaseSpeed` after `increaseSpeed`, and `increaseSpeed` after `decreaseSpeed`, restore level and coefficient |
| SpeedScaler.RunKeepsValid | src/main/java/frc/team708/robot/subsystems/DriveSubsystem.java:55-95 | any sequence of calls from a valid state keeps the level in [0, 5) with its own coefficient |
| SpeedScaler.RunLevel | src/main/java/frc/team708/robot/subsystems/DriveSubsystem.java:55-95 | after any sequence of calls from an in-range level, the level is the start level plus the number of increases minus the number of decreases, modulo 5 |
| SpeedScaler.RunDependsOnNetOnly | src/main/java/frc/team708/robot/subsystems/DriveSubsystem.java:55-95 | two call sequences with the same net count modulo 5 lead from a valid state to the same state |
| SpeedScaler.NetMultipleOfFiveIsIdentity | src/main/java/frc/team708/robot/subsystems/DriveSubsystem.java:55-95 | any call sequence whose increases minus decreases is a multiple of 5 returns a valid state to itself |
| SpeedScaler.FiveStepsCycle | src/main/java/frc/team708/robot/subsystems/DriveSubsystem.java:55-95 | five `increaseSpeed` calls, or five `decreaseSpeed` calls, return a valid state to itself |
| SpeedScaler.DecreaseFromInit | src/main/java/frc/team708/robot/subsystems/DriveSubsystem.java:36-95 | from the initial state three `decreaseSpeed` calls give coefficients 8, 6, 3; at level 0 `decreaseSpeed` goes to level 4 with coefficient 10 |
| SpeedScaler.SharedCoefficientBreaksInvariant | src/main/java/frc/team708/robot/subsystems/DriveSubsystem.java:36-37 | with the coefficient shared by two instances, one instance's `increaseSpeed` leaves the other at level 4 with coefficient 1, off the invariant |
| SwerveModules.ResetEncoders | src/main/java/frc/team708/robot/subsystems/SwerveModule.java:135-138 | `resetEncoders` zeroes the drive position and writes nothing else, in particular not the steering reading |
| SwerveModules.SetInverted | src/main/java/frc/team708/robot/subsystems/SwerveModule.java:56 | `setInverted(b)` sets the drive inversion to b and changes nothing else |
| SwerveModules.InvertDrive | src/main/java/frc/team708/robot/subsystems/SwerveModule.java:140-147 | `invertDrive` sets the drive inversion to its negation and changes nothing else |
| SwerveModules.SetDesiredState | src/main/java/frc/team708/robot/subsystems/SwerveModule.java:117-132 | the requested state becomes the module's last request; identity, inversion and positions stay |
| SwerveModules.New | src/main/java/frc/team708/robot/subsystems/SwerveModule.java:43-61 | after construction the module has the given name, channels and offset, drive inversion equal to `driveEncoderReversed`, drive position 0, the hardware's steering reading and no request |
| SwerveModules.BuiltFromUnique | src/main/java/frc/team708/robot/subsystems/SwerveModule.java:43-61 | the constructor's postcondition determines the module completely: any module meeting it is the constructed one |
| SwerveModules.NewForgetsPowerOnState | src/main/java/frc/team708/robot/subsystems/SwerveModule.java:43-61 | the drive encoder count and inversion the hardware held before construction do not affect the constructed module |
| SwerveModules.InvertDriveTwice | src/main/java/frc/team708/robot/subsystems/SwerveModule.java:140-147 | `invertDrive` twice leaves the module unchanged |
| SwerveModules.ResetEncodersIdempotent | src/main/java/frc/team708/robot/subsystems/SwerveModule.java:135-147 | `resetEncoders` twice equals once, and it commutes with `invertDrive` |
| SwerveModules.RunOpsKeepsHardware | src/main/java/frc/team708/robot/subsystems/SwerveModule.java:24-147 | no sequence of module calls changes name, channels or offset; the drive ends up inverted relative to its start exactly when `invertDrive` was called an odd number of times |
| DriveSubsystem.OrdersDisagreeEverywhere | src/main/java/frc/team708/robot/subsystems/DriveSubsystem.java:100-162 | the dispatch order (FL, FR, RL, RR) and the odometry order (RL, FL, RR, FR) each name every corner once and differ at every index |
| DriveSubsystem.New | src/main/java/frc/team708/robot/subsystems/DriveSubsystem.java:17-37 | each corner's module is the one built from that corner's configuration and hardware (name, channels, offset, inversion from `driveEncoderReversed`, zero drive position, the hardware's steering reading, no request), and the speed state is at level 4, coefficient 10 |
| DriveSubsystem.IncreaseSpeed | src/main/java/frc/team708/robot/subsystems/DriveSubsystem.java:55-74 | `increaseSpeed` keeps a valid speed state valid and changes no module |
| DriveSubsystem.DecreaseSpeed | src/main/java/frc/team708/robot/subsystems/DriveSubsystem.java:76-95 | `decreaseSpeed` keeps a valid speed state valid, leaves the level in [0, 5) and changes no module |
| DriveSubsystem.GetSpeedCoeff | src/main/java/frc/team708/robot/subsystems/DriveSubsystem.java:51-53 | on a valid speed state, the coefficient of the current level |
| DriveSubsystem.SpeedStepsInverse | src/main/java/frc/team708/robot/subsystems/DriveSubsystem.java:55-95 | on a valid speed state the two speed calls undo each other on the whole subsystem |
| DriveSubsystem.GetHeading | src/main/java/frc/team708/robot/subsystems/DriveSubsystem.java:183-185 | the heading lies in [0, 360) and is congruent modulo 360 to the gyro angle cast to `long` |
| DriveSubsystem.HeadingUnique | src/main/java/frc/team708/robot/subsystems/DriveSubsystem.java:184 | any value in [0, 360) congruent to the cast angle is the heading |
| DriveSubsystem.HeadingIdentityOnRange | src/main/java/frc/team708/robot/subsystems/DriveSubsystem.java:184 | whole angles in [0, 360) read as themselves, and a heading read again is unchanged |
| DriveSubsystem.HeadingExamples | src/main/java/frc/team708/robot/subsystems/DriveSubsystem.java:178-185 | -10 reads 350, -10.5 reads 350, -0.5 reads 0, 725.9 reads 5, and 270 reads 270, outside the documented -180..180 |
| DriveSubsystem.InvertDriveAll | src/main/java/frc/team708/robot/subsystems/DriveSubsystem.java:200-205 | `invertDrive` flips every module's drive inversion and changes nothing else |
| DriveSubsystem.ResetEncodersAll | src/main/java/frc/team708/robot/subsystems/DriveSubsystem.java:166-171 | `resetEncoders` zeroes all four drive positions and changes nothing else |
| DriveSubsystem.FanOutAlgebra | src/main/java/frc/team708/robot/subsystems/DriveSubsystem.java:166-205 | `invertDrive` twice is the identity; `resetEncoders` twice equals once |
| DriveSubsystem.Drive | src/main/java/frc/team708/robot/subsystems/DriveSubsystem.java:142-150 | `drive` gives state i to the corner at index i of FL, FR, RL, RR and changes nothing else |
| DriveSubsystem.SetModuleStates | src/main/java/frc/team708/robot/subsystems/DriveSubsystem.java:157-163 | `setModuleStates` gives state i to the corner at index i of FL, FR, RL, RR for every index the array has, stops with the first missing index when it has fewer than four, gives no module an entry past index 3, and changes nothing else |
| DriveSubsystem.DriveMatchesSetModuleStates | src/main/java/frc/team708/robot/subsystems/DriveSubsystem.java:146-162 | on four states `drive` and `setModuleStates` leave the subsystem in the same state |
| DriveSubsystem.Periodic | src/main/java/frc/team708/robot/subsystems/DriveSubsystem.java:98-102 | `periodic` gives the odometry the heading and the modules in the order RL, FL, RR, FR |
| DriveSubsystem.OdometrySeesDispatchPermuted | src/main/java/frc/team708/robot/subsystems/DriveSubsystem.java:100-149 | after `drive`, the odometry's inputs 0..3 carry states 2, 0, 3, 1 of the kinematics output |
| DriveSubsystem.RunDriveOpsInvariant | src/main/java/frc/team708/robot/subsystems/DriveSubsystem.java:55-205 | over any sequence of subsystem calls every corner keeps its identity and offset, each drive is inverted exactly when `invertDrive` was called an odd number of times, and a valid speed state stays valid |

## Left out

- Kinematics (`toSwerveModuleStates`, `fromFieldRelativeSpeeds`), `normalizeWheelSpeeds`, `SwerveModuleState.optimize` and `SwerveDriveOdometry`: library code whose source is not part of this model. `Drive` takes the four states the kinematics returns, already normalised, as its input.
- DriveSubsystem.SetModuleStates: the library's normalisation of the array before dispatch (DriveSubsystem.java:158) is not modelled, including any failure it may raise on an empty array; the empty array is modelled as stopping before any module is touched either way. Entries past index 3 reach no module but do take part in that normalisation, so they can scale the four speeds that are dispatched; the model does not say so.
- DriveSubsystem.RunDriveOps: a `setModuleStates` call with fewer than four states throws `ArrayIndexOutOfBoundsException` in Java; a run of calls carries on with the partly dispatched subsystem, i.e. it models a caller that catches the exception. The `Dispatch` result of `SetModuleStates` itself records the abort.
- Sensor readings: the drive position and steering reading change in the model only where the code writes them (construction and `resetEncoders`); the wheels' physical motion between calls, which moves both readings, is not modelled, so no property claims the steering reading stays fixed over time.
- SwerveModules.SetDesiredState: the drive and turning motor outputs (PID and profiled PID) are not modelled; only the request the module received is.
- `getAngle` and `getState`: floating-point conversions with constants from `ModuleConstants`, which is not part of this model; `Periodic` hands over the module records themselves.
- `getPose`, `resetOdometry`, `zeroHeading`, `getTurnRate`, `getRotation`: they call the odometry or the Pigeon gyro, whose source is not part of this model.
- The commented-out heading-hold PID in `drive`: dead code.
- Motor configuration in `configureMotors` except the drive encoder's zeroing, the gyro, and all `SmartDashboard` telemetry (`sendToDashboard`): device I/O.
- NaN and infinite gyro angles: Dafny reals have neither, so the `(long)` cast is modelled on finite values only.
- DecreaseSpeedCommand, RetractHangerCommand and ShootShortCommand: scheduler glue around one call each; the latter two target subsystems that are not part of this model.
