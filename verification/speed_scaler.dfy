/** The speed-level state machine of the drive subsystem: a level counter and
    the speed coefficient the drivers' joystick input is scaled by.

    `increaseSpeed` and `decreaseSpeed` first look the NEW coefficient up in a
    fixed switch keyed by the OLD level, and only then move the level by one,
    modulo 5. Read that way the two switches are one table, level 0..4 to
    coefficient 1, 3, 6, 8, 10, looked up at the NEW level: the invariant
    `coeff == CoefficientOf(level)` that this module proves. */
module SpeedScaler {
  import opened JavaArith

  /** Number of speed levels. */
  const Levels: int := 5

  /** The coefficient that belongs to each level. */
  function CoefficientOf(level: int): int
    requires 0 <= level < Levels
  {
    match level
    case 0 => 1
    case 1 => 3
    case 2 => 6
    case 3 => 8
    case _ => 10
  }

  /** `speedLevel` is a Java `int` (and public, so any value can reach it);
      `speedCoeff` is a Java `int` as well. */
  datatype SpeedState = SpeedState(level: Int32, coeff: Int32)

  /** The hidden invariant: an in-range level and its own coefficient. */
  predicate Valid(s: SpeedState)
  {
    0 <= s.level < Levels && s.coeff == CoefficientOf(s.level)
  }

  /** The state a drive subsystem starts in: level 4, coefficient 10. */
  function Init(): (s: SpeedState)
    ensures Valid(s)
    ensures s.level == Levels - 1 && s.coeff == 10
  {
    SpeedState(4, 10)
  }

  /** The switch of `increaseSpeed`; a level the switch does not list leaves
      the coefficient as it was. */
  function IncreaseCoeff(level: int, coeff: Int32): Int32
  {
    match level
    case 0 => 3
    case 1 => 6
    case 2 => 8
    case 3 => 10
    case 4 => 1
    case _ => coeff
  }

  /** The switch of `decreaseSpeed`. */
  function DecreaseCoeff(level: int, coeff: Int32): Int32
  {
    match level
    case 0 => 10
    case 1 => 1
    case 2 => 3
    case 3 => 6
    case 4 => 8
    case _ => coeff
  }

  /** `increaseSpeed`: new coefficient from the switch, then
      `speedLevel = (speedLevel + 1) % 5` in Java `int` arithmetic. */
  function Increase(s: SpeedState): (r: SpeedState)
    ensures 0 <= s.level < Levels ==> r.level == if s.level == Levels - 1 then 0 else s.level + 1
    ensures 0 <= s.level < Levels ==> r.coeff == CoefficientOf(r.level)
    ensures !(0 <= s.level < Levels) ==> r.coeff == s.coeff
    ensures 0 <= s.level < IntMax ==> 0 <= r.level < Levels
    ensures IntMin <= s.level < 0 ==> -Levels < r.level <= 0
    ensures s.level == IntMax ==> r.level == -3
  {
    SpeedState(JavaRem(Increment32(s.level), 5), IncreaseCoeff(s.level, s.coeff))
  }

  /** `decreaseSpeed`: new coefficient from the switch, then
      `speedLevel = Math.floorMod(speedLevel - 1, 5)` in Java `int` arithmetic. */
  function Decrease(s: SpeedState): (r: SpeedState)
    ensures 0 <= r.level < Levels
    ensures 0 <= s.level < Levels ==> r.level == if s.level == 0 then Levels - 1 else s.level - 1
    ensures 0 <= s.level < Levels ==> r.coeff == CoefficientOf(r.level)
    ensures !(0 <= s.level < Levels) ==> r.coeff == s.coeff
  {
    SpeedState(FloorMod(Decrement32(s.level), 5), DecreaseCoeff(s.level, s.coeff))
  }

  /** `getSpeedCoeff`: on a valid state, the coefficient of the current level,
      one of the five table values. */
  function SpeedCoeff(s: SpeedState): (c: int)
    ensures Valid(s) ==> c == CoefficientOf(s.level) && c in {1, 3, 6, 8, 10}
  {
    s.coeff
  }

  /** Both steps keep the invariant. */
  lemma StepsPreserveValid(s: SpeedState)
    requires Valid(s)
    ensures Valid(Increase(s)) && Valid(Decrease(s))
  {
  }

  /** A valid state is determined by its level alone. */
  lemma ValidDeterminedByLevel(s: SpeedState, t: SpeedState)
    requires Valid(s) && Valid(t) && s.level == t.level
    ensures s == t
  {
  }

  /** On valid states the two steps are mutual inverses. */
  lemma IncreaseDecreaseInverse(s: SpeedState)
    requires Valid(s)
    ensures Decrease(Increase(s)) == s
    ensures Increase(Decrease(s)) == s
  {
  }

  /** One call of either operation. */
  datatype Step = Up | Down

  /** A sequence of calls, applied left to right. */
  function Run(s: SpeedState, steps: seq<Step>): SpeedState
    decreases |steps|
  {
    if steps == [] then s
    else
      var t := if steps[0] == Up then Increase(s) else Decrease(s);
      Run(t, steps[1..])
  }

  /** Number of `Up` calls minus number of `Down` calls. */
  function Net(steps: seq<Step>): int
    decreases |steps|
  {
    if steps == [] then 0
    else (if steps[0] == Up then 1 else -1) + Net(steps[1..])
  }

  /** Any sequence of calls from a valid state keeps the level in [0, 5)
      with its own coefficient. */
  lemma {:induction false} RunKeepsValid(s: SpeedState, steps: seq<Step>)
    requires Valid(s)
    ensures Valid(Run(s, steps))
    decreases |steps|
  {
    if steps != [] {
      StepsPreserveValid(s);
      if steps[0] == Up {
        RunKeepsValid(Increase(s), steps[1..]);
      } else {
        RunKeepsValid(Decrease(s), steps[1..]);
      }
    }
  }

  /** Along any sequence of calls from an in-range level the level moves by the
      net number of steps, modulo 5. */
  lemma {:induction false} RunLevel(s: SpeedState, steps: seq<Step>)
    requires 0 <= s.level < Levels
    ensures Run(s, steps).level == (s.level + Net(steps)) % 5
    decreases |steps|
  {
    if steps == [] {
      EuclideanUnique(s.level, 5, 0, s.level);
    } else {
      var rest := steps[1..];
      StepLevel(s);
      var t := if steps[0] == Up then Increase(s) else Decrease(s);
      var d := if steps[0] == Up then 1 else -1;
      assert Run(s, steps) == Run(t, rest);
      assert Net(steps) == d + Net(rest);
      RunLevel(t, rest);
      ModShift(t.level, s.level + d, Net(rest));
    }
  }

  /** Reducing modulo 5 before adding `n` does not change the sum modulo 5. */
  lemma ModShift(m: int, a: int, n: int)
    requires m == a % 5
    ensures (m + n) % 5 == (a + n) % 5
  {
  }

  /** One step moves an in-range level by one, modulo 5. */
  lemma StepLevel(s: SpeedState)
    requires 0 <= s.level < Levels
    ensures Increase(s).level == (s.level + 1) % 5
    ensures Decrease(s).level == (s.level - 1) % 5
  {
  }

  /** Two runs from the same valid state with the same net count, modulo 5,
      end in the same state. */
  lemma RunDependsOnNetOnly(s: SpeedState, steps1: seq<Step>, steps2: seq<Step>)
    requires Valid(s)
    requires (s.level + Net(steps1)) % 5 == (s.level + Net(steps2)) % 5
    ensures Run(s, steps1) == Run(s, steps2)
  {
    RunKeepsValid(s, steps1);
    RunKeepsValid(s, steps2);
    RunLevel(s, steps1);
    RunLevel(s, steps2);
    ValidDeterminedByLevel(Run(s, steps1), Run(s, steps2));
  }

  /** A sequence of calls whose net count is a multiple of 5 returns a
      valid state to itself. */
  lemma NetMultipleOfFiveIsIdentity(s: SpeedState, steps: seq<Step>)
    requires Valid(s) && Net(steps) % 5 == 0
    ensures Run(s, steps) == s
  {
    RunKeepsValid(s, steps);
    RunLevel(s, steps);
    ModShift(0, Net(steps), s.level);
    EuclideanUnique(s.level, 5, 0, s.level);
    ValidDeterminedByLevel(Run(s, steps), s);
  }

  /** Five `increaseSpeed` calls, or five `decreaseSpeed` calls, return to
      the starting state. */
  lemma FiveStepsCycle(s: SpeedState)
    requires Valid(s)
    ensures Run(s, [Up, Up, Up, Up, Up]) == s
    ensures Run(s, [Down, Down, Down, Down, Down]) == s
  {
    NetMultipleOfFiveIsIdentity(s, [Up, Up, Up, Up, Up]);
    NetMultipleOfFiveIsIdentity(s, [Down, Down, Down, Down, Down]);
  }

  /** From the initial state, three `decreaseSpeed` calls give 8, 6, 3; and
      `decreaseSpeed` at level 0 wraps to level 4 with coefficient 10. */
  lemma DecreaseFromInit()
    ensures Decrease(Init()).coeff == 8
    ensures Decrease(Decrease(Init())).coeff == 6
    ensures Decrease(Decrease(Decrease(Init()))).coeff == 3
    ensures Decrease(SpeedState(0, 1)) == SpeedState(4, 10)
  {
  }

  /** `speedCoeff` is a static field while `speedLevel` belongs to each
      instance: with two drive subsystems, one instance's `increaseSpeed`
      leaves the other instance at level 4 with coefficient 1, off the
      invariant. */
  lemma SharedCoefficientBreaksInvariant()
    ensures !Valid(SpeedState(Init().level, Increase(Init()).coeff))
  {
  }
}
