/** Java integer semantics that the drive code relies on: 32-bit `int`
    wrap-around, the truncating remainder operator `%`, `Math.floorMod`, and
    the `(long)` cast of a `double`. Dafny's own `int` is unbounded and its
    `%` is Euclidean, so each of these is written out explicitly. */
module JavaArith {

  const IntMin: int := -0x8000_0000
  const IntMax: int := 0x7FFF_FFFF
  const LongMin: int := -0x8000_0000_0000_0000
  const LongMax: int := 0x7FFF_FFFF_FFFF_FFFF

  /** A Java `int`. */
  type Int32 = x: int | IntMin <= x <= IntMax

  /** A Java `long`. */
  type Int64 = x: int | LongMin <= x <= LongMax

  /** `x + 1` on a Java `int`: the low 32 bits of the exact sum, read as a
      two's-complement value (so the largest value wraps to the smallest). */
  function Increment32(x: Int32): (r: Int32)
    ensures (r - (x + 1)) % 0x1_0000_0000 == 0
  {
    if x == IntMax then IntMin else x + 1
  }

  /** `x - 1` on a Java `int`: the low 32 bits of the exact difference, read
      as a two's-complement value (so the smallest value wraps to the largest). */
  function Decrement32(x: Int32): (r: Int32)
    ensures (r - (x - 1)) % 0x1_0000_0000 == 0
  {
    if x == IntMin then IntMax else x - 1
  }

  /** A quotient/remainder pair with the remainder in [0, b) is the one
      Dafny's Euclidean `/` and `%` compute. */
  lemma {:induction false} EuclideanUnique(a: int, b: int, q: int, r: int)
    requires b > 0 && 0 <= r < b && a == q * b + r
    ensures a / b == q && a % b == r
  {
    var q0, r0 := a / b, a % b;
    assert a == q0 * b + r0;
    assert (q - q0) * b == r0 - r;
    if q - q0 >= 1 {
      MulAtLeast(q - q0, b);
      assert false;
    } else if q0 - q >= 1 {
      MulAtLeast(q0 - q, b);
      assert false;
    }
  }

  lemma MulAtLeast(k: int, b: int)
    requires k >= 1 && b > 0
    ensures k * b >= b
  {
  }

  /** Java's remainder `a % b` for a positive divisor: the remainder of the
      quotient rounded toward zero, so it takes the sign of `a`. */
  function JavaRem(a: int, b: int): (r: int)
    requires b > 0
    ensures a >= 0 ==> 0 <= r < b
    ensures a < 0 ==> -b < r <= 0
    ensures (a - r) % b == 0
  {
    if a >= 0 then
      EuclideanUnique(a - a % b, b, a / b, 0);
      a % b
    else
      EuclideanUnique(a + (-a) % b, b, -((-a) / b), 0);
      -((-a) % b)
  }

  /** `Math.floorMod(a, b)` for a positive divisor, written the way Java
      computes it: the truncating remainder, shifted up by `b` when it is
      negative. Its contract says that it agrees with Dafny's `%`. */
  function FloorMod(a: int, b: int): (r: int)
    requires b > 0
    ensures 0 <= r < b
    ensures r == a % b
  {
    var m := JavaRem(a, b);
    if m < 0 then
      EuclideanUnique(a, b, (a - m) / b - 1, m + b);
      m + b
    else
      EuclideanUnique(a, b, (a - m) / b, m);
      m
  }

  /** Rounding of a real toward zero, the core of Java's `(long)` cast. */
  function TruncateTowardZero(x: real): (r: int)
    ensures 0.0 <= x ==> 0 <= r && r as real <= x < r as real + 1.0
    ensures x < 0.0 ==> r <= 0 && r as real - 1.0 < x <= r as real
  {
    if x >= 0.0 then x.Floor else -((-x).Floor)
  }

  /** Java's `(long)` cast of a finite `double`: truncation toward zero,
      saturating at the ends of the `long` range. */
  function LongCast(x: real): (r: Int64)
    ensures LongMin as real <= x <= LongMax as real ==> r == TruncateTowardZero(x)
    ensures x >= LongMax as real ==> r == LongMax
    ensures x <= LongMin as real ==> r == LongMin
  {
    var t := TruncateTowardZero(x);
    if t > LongMax then LongMax else if t < LongMin then LongMin else t
  }
}
