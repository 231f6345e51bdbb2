/*
 * The arithmetic engine of the timing-belt calculator: unit conversion, the belt
 * pitch constants, the pitch diameter of a pulley, Rust's floating-point remainder
 * and the tooth-count rounding rule shared by both belt routings.
 *
 * Floating-point numbers are modelled as `real`: rounding error, NaN and infinity
 * are not modelled; where the program would produce NaN or infinity the model
 * returns `None`.
 */
module Calc {

  datatype Option<+T> = None | Some(value: T)

  /** A Rust `i32`: the type of the tooth counts typed into the form. */
  type i32 = x: int | -0x8000_0000 <= x < 0x8000_0000

  /** The values pi may take: only these bounds of the circle constant are known here. */
  type PiRange = x: real | 3.14159 < x < 3.14160 witness 3.141592653

  /** The circle constant, kept opaque: no digit of it is ever evaluated. */
  const PI: PiRange

  /**
   * `sqrt` behaves as a square root on the non-negative reals; nothing is
   * promised of it below zero, where `f64::sqrt` returns NaN.
   */
  ghost predicate IsSqrt(sqrt: real -> real) {
    forall x :: 0.0 <= x ==> 0.0 <= sqrt(x) && sqrt(x) * sqrt(x) == x
  }

  /** `f64::powi(x, 2)`: never negative. */
  function Square(x: real): (s: real)
    ensures 0.0 <= s
  {
    x * x
  }

  /** A product kept as one term in proofs, so that facts about it survive the solver's rewriting. */
  ghost function Mul(a: real, b: real): real {
    a * b
  }

  lemma MulPositive(a: real, b: real)
    requires 0.0 < a && 0.0 < b
    ensures 0.0 < Mul(a, b)
  {
  }

  lemma SquarePositive(s: real)
    requires s != 0.0
    ensures 0.0 < Square(s)
  {
    if 0.0 < s {
      MulPositive(s, s);
      assert Mul(s, s) == Square(s);
    } else {
      MulPositive(-s, -s);
      assert Mul(-s, -s) == Square(s);
    }
  }

  /** A square root is the only non-negative number with its square. */
  lemma SqrtOfSquare(sqrt: real -> real, y: real)
    requires IsSqrt(sqrt)
    requires 0.0 <= y
    ensures sqrt(Square(y)) == y
  {
    var s := sqrt(y * y);
    if s < y {
      assert Mul(y - s, y + s) == y * y - s * s;
      MulPositive(y - s, y + s);
    } else if y < s {
      assert Mul(s - y, s + y) == s * s - y * y;
      MulPositive(s - y, s + y);
    }
  }

  /** Millimetres per inch. */
  const MM_PER_INCH: real := 25.4

  /** Converts a length in millimetres into inches. */
  function MmToInches(mm: real): (inches: real)
    ensures inches * MM_PER_INCH == mm
    ensures (0.0 < mm) == (0.0 < inches)
  {
    mm / MM_PER_INCH
  }

  /** Tooth spacing of a 5 mm belt, in inches. */
  const PITCH_5MM_BELT: real := 5.0 / 25.4

  /** Tooth spacing of a 3 mm belt, in inches. */
  const PITCH_3MM_BELT: real := 3.0 / 25.4

  /** The stored pitches are the conversions of 5 mm and 3 mm, and both are positive. */
  lemma PitchesAreConvertedMillimetres()
    ensures PITCH_5MM_BELT == MmToInches(5.0) && PITCH_3MM_BELT == MmToInches(3.0)
    ensures 0.0 < PITCH_3MM_BELT < PITCH_5MM_BELT
  {
  }

  /**
   * The pitch diameter of a pulley with `teeth` teeth on a 5 mm belt: its pitch
   * circle is as long as `teeth` pitches.
   */
  function Diameter5mm(teeth: i32): (d: real)
    ensures PI * d == PITCH_5MM_BELT * teeth as real
    ensures (0.0 < d) == (0 < teeth) && (d == 0.0) == (teeth == 0)
  {
    PITCH_5MM_BELT / PI * teeth as real
  }

  /** The diameter is linear in the tooth count: each tooth adds pitch / pi. */
  lemma Diameter5mmLinear(a: i32, b: i32)
    ensures Diameter5mm(a) - Diameter5mm(b) == (a - b) as real * (PITCH_5MM_BELT / PI)
  {
  }

  /** More teeth make a strictly larger pulley. */
  lemma Diameter5mmIncreasing(a: i32, b: i32)
    requires a < b
    ensures Diameter5mm(a) < Diameter5mm(b)
  {
    Diameter5mmLinear(b, a);
    assert 0.0 < PITCH_5MM_BELT / PI;
  }

  /** Truncation toward zero of a real. */
  function Trunc(x: real): int {
    if 0.0 <= x then x.Floor else -((-x).Floor)
  }

  /**
   * Rust's `x % 5.0` on `f64`: the remainder of the division by five truncated
   * toward zero. It carries the sign of the dividend, unlike Dafny's `%` on `int`.
   */
  function RemFive(x: real): (r: real)
    ensures 0.0 <= x ==> 0.0 <= r < 5.0
    ensures x <= 0.0 ==> -5.0 < r <= 0.0
    ensures x - r == 5.0 * Trunc(x / 5.0) as real
  {
    x - 5.0 * Trunc(x / 5.0) as real
  }

  /**
   * The tooth-count rule of both `belt_length_actual` functions: take the
   * floor of the candidate tooth count, then move it to a multiple of five,
   * up when Rust's remainder by five is at least 2.5 and down otherwise.
   */
  function SnapToFive(teeth: real): (t: real)
    ensures t == RoundToFive(teeth.Floor) as real
  {
    RemFiveOfWhole(teeth.Floor);
    RoundToFiveByRemainder(teeth.Floor);
    var teeth := teeth.Floor as real;
    if RemFive(teeth) >= 2.5 then teeth + (5.0 - RemFive(teeth)) else teeth - RemFive(teeth)
  }

  /** On a whole number, Rust's remainder by five is Dafny's, with the dividend's sign. */
  lemma RemFiveOfWhole(n: int)
    ensures RemFive(n as real) == (if 0 <= n then n % 5 else -((-n) % 5)) as real
  {
    if 0 <= n {
      assert Trunc(n as real / 5.0) == n / 5;
    } else {
      assert Trunc(n as real / 5.0) == -((-n) / 5);
    }
  }

  /**
   * The rounding rule on whole tooth counts, stated independently of the
   * remainder: from zero up, the nearest multiple of five (a whole number is
   * never exactly halfway); below zero, the multiple of five next toward zero.
   */
  function RoundToFive(n: int): (m: int)
    ensures m % 5 == 0
    ensures 0 <= n ==> -2 <= m - n <= 2
    ensures n < 0 ==> 0 <= m - n <= 4 && m <= 0
  {
    if 0 <= n then 5 * ((n + 2) / 5) else -5 * ((-n) / 5)
  }

  /**
   * From zero up, remainders 0, 1 and 2 round down and remainders 3 and 4
   * round up; below zero the count moves up by its distance to the next
   * multiple of five toward zero.
   */
  lemma RoundToFiveByRemainder(n: int)
    ensures 0 <= n && n % 5 <= 2 ==> RoundToFive(n) == n - n % 5
    ensures 0 <= n && 3 <= n % 5 ==> RoundToFive(n) == n + (5 - n % 5)
    ensures n < 0 ==> RoundToFive(n) == n + (-n) % 5
  {
    if 0 <= n {
      assert n == 5 * (n / 5) + n % 5;
      if n % 5 <= 2 {
        assert (n + 2) / 5 == n / 5;
      } else {
        assert (n + 2) / 5 == n / 5 + 1;
      }
    } else {
      assert -n == 5 * ((-n) / 5) + (-n) % 5;
    }
  }

  function Distance(a: int, b: int): nat {
    if a <= b then b - a else a - b
  }

  /** From zero up, no multiple of five is closer to `n` than the rounded count. */
  lemma RoundToFiveIsNearest(n: int, k: int)
    requires 0 <= n
    ensures Distance(RoundToFive(n), n) <= Distance(5 * k, n)
  {
  }

  /** The rule never lowers a larger count below a smaller one. */
  lemma RoundToFiveMonotone(a: int, b: int)
    requires a <= b
    ensures RoundToFive(a) <= RoundToFive(b)
  {
    if 0 <= a {
      DivFiveMonotone(a + 2, b + 2);
    } else if b < 0 {
      DivFiveMonotone(-b, -a);
    }
  }

  /** Division by five is monotone on the naturals. */
  lemma DivFiveMonotone(x: int, y: int)
    requires 0 <= x <= y
    ensures x / 5 <= y / 5
  {
    assert x == 5 * (x / 5) + x % 5;
    assert y == 5 * (y / 5) + y % 5;
  }

  /** A multiple of five is left as it is. */
  lemma RoundToFiveFixesMultiples(n: int)
    requires n % 5 == 0
    ensures RoundToFive(n) == n
  {
  }

  /** Five times any count is left as it is. */
  lemma RoundToFiveOfMultiple(k: int)
    ensures RoundToFive(5 * k) == 5 * k
  {
    assert (5 * k) % 5 == 0;
    RoundToFiveFixesMultiples(5 * k);
  }

  /** Snapping is monotone in the candidate tooth count. */
  lemma SnapToFiveMonotone(x: real, y: real)
    requires x <= y
    ensures SnapToFive(x) <= SnapToFive(y)
  {
    RoundToFiveMonotone(x.Floor, y.Floor);
  }

  /** Snapping a snapped count changes nothing. */
  lemma SnapToFiveIdempotent(x: real)
    ensures SnapToFive(SnapToFive(x)) == SnapToFive(x)
  {
    RoundToFiveFixesMultiples(SnapToFive(x).Floor);
  }

  /** A count whose floor is already a multiple of five snaps to that floor. */
  lemma SnapToFiveKeepsMultiples(x: real)
    requires x.Floor % 5 == 0
    ensures SnapToFive(x) == x.Floor as real
  {
    RoundToFiveFixesMultiples(x.Floor);
  }

  /** Taking the floor before snapping changes nothing, so a caller's own floor is harmless. */
  lemma SnapToFiveOfFloor(x: real)
    ensures SnapToFive(x.Floor as real) == SnapToFive(x)
  {
  }

  /**
   * From zero up, the reported count is at most 2 above the candidate and less
   * than 3 below it: the floor taken first can cost up to one more tooth than
   * rounding to the nearest multiple of five would.
   */
  lemma SnapToFiveWithinBounds(x: real)
    requires 0.0 <= x
    ensures -3.0 < SnapToFive(x) - x <= 2.0
  {
    assert x.Floor as real <= x < x.Floor as real + 1.0;
    assert -2 <= RoundToFive(x.Floor) - x.Floor <= 2;
  }

  /**
   * The rule does not always give the nearest multiple of five: a fractional
   * candidate of 47.9 teeth is floored to 47 and reported as 45, although 50
   * is nearer; below zero, -3 and -13 move toward zero to 0 and -10, although
   * -5 and -15 are nearer.
   */
  lemma SnapToFiveMissesNearest()
    ensures SnapToFive(47.9) == 45.0 && 50.0 - 47.9 < 47.9 - SnapToFive(47.9)
    ensures SnapToFive(-3.0) == 0.0 && -3.0 - -5.0 < SnapToFive(-3.0) - -3.0
    ensures SnapToFive(-13.0) == -10.0 && -13.0 - -15.0 < SnapToFive(-13.0) - -13.0
  {
    assert (47.9).Floor == 47;
  }

  /** 47 teeth round down to 45, 48 round up to 50, 47.9 floors to 47 first, and -3 goes to 0. */
  lemma SnapToFiveExamples()
    ensures SnapToFive(47.0) == 45.0
    ensures SnapToFive(48.0) == 50.0
    ensures SnapToFive(47.9) == 45.0
    ensures SnapToFive(-3.0) == 0.0
    ensures SnapToFive(-8.0) == -5.0
  {
  }
}
