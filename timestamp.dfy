/**
 * The integer arithmetic of C that the timestamp relies on: `/` and `%`
 * truncate toward zero, and a conversion to a 32-bit `int` wraps.
 */
module CArith {

  const Int32Min: int := -0x8000_0000
  const Int32Max: int := 0x7FFF_FFFF
  const Int64Min: int := -0x8000_0000_0000_0000
  const Int64Max: int := 0x7FFF_FFFF_FFFF_FFFF

  /** `x` is a value of a C `int` (32 bits). */
  predicate InInt32(x: int) {
    Int32Min <= x <= Int32Max
  }

  /** `x` is a value of a `jlong` (64 bits). */
  predicate InInt64(x: int) {
    Int64Min <= x <= Int64Max
  }

  /** C's `a / b` for `b > 0`: the quotient truncated toward zero. */
  function Quot(a: int, b: int): (q: int)
    requires b > 0
  {
    if a >= 0 then a / b else -((-a) / b)
  }

  /** C's `a % b` for `b > 0`: the remainder takes the sign of `a`. */
  function Rem(a: int, b: int): (r: int)
    requires b > 0
  {
    if a >= 0 then a % b else -((-a) % b)
  }

  /**
   * The identity C requires of its `/` and `%`: `(a / b) * b + a % b == a`,
   * with the remainder smaller than `b` in magnitude and of the sign of `a`.
   */
  lemma QuotRem(a: int, b: int)
    requires b > 0
    ensures Quot(a, b) * b + Rem(a, b) == a
    ensures -b < Rem(a, b) < b
    ensures a >= 0 ==> Rem(a, b) >= 0
    ensures a <= 0 ==> Rem(a, b) <= 0
  {
  }

  /**
   * The conversion `(int)x` of a wider integer: the value modulo 2^32 in the
   * range of `int`, as the compilers the agent is built with do it.
   */
  function ToInt32(x: int): (r: int)
    ensures InInt32(r)
    ensures InInt32(x) ==> r == x
    ensures (x - r) % 0x1_0000_0000 == 0
  {
    (x - Int32Min) % 0x1_0000_0000 + Int32Min
  }
}

/**
 * The elapsed-time field of a trace line: whole seconds and the
 * sub-second remainder in units of 10 microseconds (the fifth decimal
 * place of a second), both as C computes them from a nanosecond count.
 */
module Timestamp {
  import opened CArith

  const NanosPerSecond: int := 1_000_000_000
  /** One unit of the fractional field: 10 microseconds, the fifth decimal place of a second. */
  const NanosPerUnit: int := 10_000
  const UnitsPerSecond: int := 100_000

  /** `time / 1000000000` on a `jlong`. */
  function Seconds(elapsed: int): int {
    Quot(elapsed, NanosPerSecond)
  }

  /** `time % 1000000000 / 10000` on a `jlong`. */
  function Fraction(elapsed: int): int {
    Quot(Rem(elapsed, NanosPerSecond), NanosPerUnit)
  }

  /** The fractional field never needs more than five digits, and has the sign of the elapsed time. */
  lemma FractionRange(elapsed: int)
    ensures -UnitsPerSecond < Fraction(elapsed) < UnitsPerSecond
    ensures elapsed >= 0 ==> Fraction(elapsed) >= 0
    ensures elapsed <= 0 ==> Fraction(elapsed) <= 0
  {
    var r := Rem(elapsed, NanosPerSecond);
    QuotRem(elapsed, NanosPerSecond);
    if r >= 0 {
      assert r / NanosPerUnit < UnitsPerSecond;
    } else {
      assert (-r) / NanosPerUnit < UnitsPerSecond;
    }
  }

  /** Both fields survive the `(int)` casts of the source unchanged when the seconds fit an `int`. */
  lemma CastsKeepFields(elapsed: int)
    requires InInt32(Seconds(elapsed))
    ensures ToInt32(Seconds(elapsed)) == Seconds(elapsed)
    ensures ToInt32(Fraction(elapsed)) == Fraction(elapsed)
  {
    FractionRange(elapsed);
  }

  /** The seconds fit an `int` for any non-negative elapsed time below 2^31 seconds (about 68 years). */
  lemma SecondsFit(elapsed: int)
    requires 0 <= elapsed < (Int32Max + 1) * NanosPerSecond
    ensures InInt32(Seconds(elapsed))
  {
  }

  /**
   * Read together, the two fields count the elapsed time in whole units of
   * 10 microseconds, truncated: the printed stamp is `elapsed / 10000`.
   */
  lemma {:induction false} StampIsTruncatedUnits(elapsed: int)
    requires elapsed >= 0
    ensures Seconds(elapsed) * UnitsPerSecond + Fraction(elapsed) == elapsed / NanosPerUnit
  {
    var s, r := elapsed / NanosPerSecond, elapsed % NanosPerSecond;
    var f, r2 := r / NanosPerUnit, r % NanosPerUnit;
    assert elapsed == NanosPerUnit * (s * UnitsPerSecond + f) + r2;
    assert 0 <= r2 < NanosPerUnit;
    DivOfSplit(elapsed, s * UnitsPerSecond + f, r2);
  }

  lemma DivOfSplit(x: int, q: int, r: int)
    requires x == NanosPerUnit * q + r && 0 <= r < NanosPerUnit
    ensures x / NanosPerUnit == q
  {
  }

  /** Truncation, not rounding: the stamp is the latest 10-microsecond mark not after the elapsed time. */
  lemma Truncation(elapsed: int)
    requires elapsed >= 0
    ensures Seconds(elapsed) * NanosPerSecond + Fraction(elapsed) * NanosPerUnit <= elapsed
    ensures elapsed < Seconds(elapsed) * NanosPerSecond + (Fraction(elapsed) + 1) * NanosPerUnit
  {
    StampIsTruncatedUnits(elapsed);
  }

  /** Later events never get an earlier stamp: the fields are ordered lexicographically. */
  lemma Monotone(e1: int, e2: int)
    requires 0 <= e1 <= e2
    ensures Seconds(e1) < Seconds(e2) || (Seconds(e1) == Seconds(e2) && Fraction(e1) <= Fraction(e2))
  {
    StampIsTruncatedUnits(e1);
    StampIsTruncatedUnits(e2);
    FractionRange(e1);
    FractionRange(e2);
    assert e1 / NanosPerUnit <= e2 / NanosPerUnit;
  }

  /** A negative elapsed time (a clock that went back) prints as the negated fields of its magnitude. */
  lemma NegativeElapsed(elapsed: int)
    requires elapsed < 0
    ensures Seconds(elapsed) == -Seconds(-elapsed)
    ensures Fraction(elapsed) == -Fraction(-elapsed)
  {
  }
}
