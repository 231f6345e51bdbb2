/*
 * Contra (twisted, crossed) belts: the center-to-center distance of two
 * pulleys of diameters d1 and d2 joined by a crossed belt of `teeth` teeth of
 * the given pitch, and the reconciliation of a candidate tooth count with
 * belts sold in multiples of five teeth.
 *
 * With L = teeth * pitch and S = d1 + d2, a crossed belt of center distance
 * C > 0 has L = 2 C + (pi / 2) S + S^2 / (4 C); multiplied by 4 C this is the
 * quadratic 8 C^2 + g C + S^2 = 0 with g = 2 pi S - 4 L, and the program takes
 * its larger root.
 */
module Contra {
  import opened Calc

  /**
   * The linear coefficient g of the crossed-belt quadratic: four times the
   * amount by which the belt falls short of (pi / 2) (d1 + d2).
   */
  function Generic(d1: real, d2: real, teeth: real, pitch: real): (g: real)
    ensures g < 0.0 <==> PI / 2.0 * (d1 + d2) < teeth * pitch
  {
    PI * 2.0 * (d1 + d2) - teeth * 4.0 * pitch
  }

  /**
   * The center-to-center distance: the larger root of the crossed-belt
   * quadratic. `None` where the program takes the square root of a negative
   * discriminant (NaN).
   */
  function CenterToCenter(sqrt: real -> real, d1: real, d2: real, teeth: real, pitch: real): (c: Option<real>)
    ensures c.Some? <==> 32.0 * Square(d1 + d2) <= Square(Generic(d1, d2, teeth, pitch))
    ensures IsSqrt(sqrt) && c.Some? ==>
      && 8.0 * Square(c.value) + Generic(d1, d2, teeth, pitch) * c.value + Square(d1 + d2) == 0.0
      && -Generic(d1, d2, teeth, pitch) <= 16.0 * c.value
  {
    var generic := PI * 2.0 * (d1 + d2) - teeth * 4.0 * pitch;
    var discriminant := Square(generic) - 32.0 * Square(d1 + d2);
    if 0.0 <= discriminant then
      var root := sqrt(discriminant);
      var c := (-generic + root) / 16.0;
      assert IsSqrt(sqrt) ==> root * root == discriminant;
      assert 256.0 * (c * c) == generic * generic - 2.0 * generic * root + root * root;
      assert 16.0 * (generic * c) == -(generic * generic) + generic * root;
      Some(c)
    else
      None
  }

  /** The result does not depend on which pulley is called the first. */
  lemma CenterToCenterSymmetric(sqrt: real -> real, d1: real, d2: real, teeth: real, pitch: real)
    ensures CenterToCenter(sqrt, d1, d2, teeth, pitch) == CenterToCenter(sqrt, d2, d1, teeth, pitch)
  {
    assert d1 + d2 == d2 + d1;
  }

  /**
   * On two real pulleys the distance is positive exactly when g < 0, that is
   * when the belt is longer than (pi / 2) (d1 + d2); a shorter belt whose
   * discriminant is still non-negative gets a negative distance, not NaN.
   */
  lemma CenterToCenterSign(sqrt: real -> real, d1: real, d2: real, teeth: real, pitch: real)
    requires IsSqrt(sqrt)
    requires d1 + d2 != 0.0
    requires CenterToCenter(sqrt, d1, d2, teeth, pitch).Some?
    ensures var c := CenterToCenter(sqrt, d1, d2, teeth, pitch).value;
      c != 0.0 && (0.0 < c <==> Generic(d1, d2, teeth, pitch) < 0.0)
  {
    RootSign(CenterToCenter(sqrt, d1, d2, teeth, pitch).value, Generic(d1, d2, teeth, pitch), d1 + d2);
  }

  /**
   * A root c of 8 c^2 + g c + s^2 with s != 0 is never zero, and it is
   * positive exactly when g is negative, since c (8 c + g) = -s^2 < 0.
   */
  lemma RootSign(c: real, g: real, s: real)
    requires 8.0 * Square(c) + g * c + Square(s) == 0.0
    requires s != 0.0
    ensures c != 0.0 && (0.0 < c <==> g < 0.0)
  {
    SquarePositive(s);
    if c == 0.0 {
    } else if 0.0 < c && 0.0 <= g {
      SquarePositive(c);
      if 0.0 < g {
        assert Mul(g, c) == g * c;
        MulPositive(g, c);
      }
    } else if c < 0.0 && g <= 0.0 {
      SquarePositive(c);
      if g < 0.0 {
        assert Mul(-g, -c) == g * c;
        MulPositive(-g, -c);
      }
    }
  }

  /** Two pulleys of one-inch diameter and no belt: the discriminant is 16 pi^2 - 128 >= 0 and the distance is negative. */
  lemma CenterToCenterWithoutBelt(sqrt: real -> real)
    requires IsSqrt(sqrt)
    ensures CenterToCenter(sqrt, 1.0, 1.0, 0.0, PITCH_5MM_BELT).Some?
    ensures CenterToCenter(sqrt, 1.0, 1.0, 0.0, PITCH_5MM_BELT).value < 0.0
  {
    var pi: real := PI;
    assert Generic(1.0, 1.0, 0.0, PITCH_5MM_BELT) == 4.0 * pi;
    assert 9.0 < Square(pi) by {
      assert Mul(pi - 3.0, pi + 3.0) == Square(pi) - 9.0;
      MulPositive(pi - 3.0, pi + 3.0);
    }
    assert 32.0 * Square(2.0) <= Square(4.0 * pi);
    CenterToCenterSign(sqrt, 1.0, 1.0, 0.0, PITCH_5MM_BELT);
  }

  /**
   * `belt_length_actual` for contra belts: the candidate tooth count is
   * floored and snapped to a multiple of five, and the distance is that of
   * the snapped belt on the same pulleys and pitch.
   */
  function BeltLengthActual(sqrt: real -> real, d1: real, d2: real, teeth: real, pitch: real): (r: (real, Option<real>))
    ensures r.0 == RoundToFive(teeth.Floor) as real
    ensures r.1 == CenterToCenter(sqrt, d1, d2, r.0, pitch)
    ensures r.1.Some? <==> 32.0 * Square(d1 + d2) <= Square(Generic(d1, d2, r.0, pitch))
    ensures IsSqrt(sqrt) && r.1.Some? ==>
      && 8.0 * Square(r.1.value) + Generic(d1, d2, r.0, pitch) * r.1.value + Square(d1 + d2) == 0.0
      && -Generic(d1, d2, r.0, pitch) <= 16.0 * r.1.value
  {
    var teeth := SnapToFive(teeth);
    (teeth, CenterToCenter(sqrt, d1, d2, teeth, pitch))
  }
}
