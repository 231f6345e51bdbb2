/*
 * Normal (untwisted) belts: the center-to-center distance of two pulleys of
 * radii r1 and r2 joined by an open belt of `teeth` teeth of the given pitch,
 * and the reconciliation of a candidate tooth count with belts sold in
 * multiples of five teeth.
 */
module Normal {
  import opened Calc

  /**
   * Half of the belt that is left once half of each pulley is wrapped: the
   * length of one straight run when the belt is long enough.
   */
  function HalfSpan(r1: real, r2: real, teeth: real, pitch: real): (h: real)
    ensures PI * (r1 + r2) + 2.0 * h == teeth * pitch
    ensures 0.0 <= h <==> PI * (r1 + r2) <= teeth * pitch
  {
    (teeth * pitch - PI * (r1 + r2)) / 2.0
  }

  /**
   * The center-to-center distance: the other leg of the right triangle whose
   * hypotenuse is the straight run and whose first leg is the radius
   * difference. `None` where the program takes the square root of a negative
   * number (NaN).
   */
  function CenterToCenter(sqrt: real -> real, r1: real, r2: real, teeth: real, pitch: real): (c: Option<real>)
    ensures c.Some? <==> Square(r2 - r1) <= Square(HalfSpan(r1, r2, teeth, pitch))
    ensures IsSqrt(sqrt) && c.Some? ==>
      0.0 <= c.value && Square(c.value) + Square(r2 - r1) == Square(HalfSpan(r1, r2, teeth, pitch))
  {
    var radicand := Square((teeth * pitch - PI * (r1 + r2)) / 2.0) - Square(r2 - r1);
    if 0.0 <= radicand then Some(sqrt(radicand)) else None
  }

  /** The result does not depend on which pulley is called the first. */
  lemma CenterToCenterSymmetric(sqrt: real -> real, r1: real, r2: real, teeth: real, pitch: real)
    ensures CenterToCenter(sqrt, r1, r2, teeth, pitch) == CenterToCenter(sqrt, r2, r1, teeth, pitch)
  {
    assert Square(r2 - r1) == Square(r1 - r2);
  }

  /**
   * Because the straight run is squared, the solver cannot tell a belt of
   * length L from one of length 2 pi (r1 + r2) - L: a belt too short to wrap
   * both pulleys gets the same distance as its mirror image.
   */
  lemma CenterToCenterMirror(sqrt: real -> real, r1: real, r2: real, teeth: real, pitch: real)
    requires pitch != 0.0
    ensures CenterToCenter(sqrt, r1, r2, teeth, pitch)
         == CenterToCenter(sqrt, r1, r2, 2.0 * PI * (r1 + r2) / pitch - teeth, pitch)
  {
    var mirror := 2.0 * PI * (r1 + r2) / pitch - teeth;
    var run := HalfSpan(r1, r2, teeth, pitch);
    assert HalfSpan(r1, r2, mirror, pitch) == -run by {
      assert mirror * pitch == 2.0 * PI * (r1 + r2) - teeth * pitch;
    }
    assert Square(-run) == Square(run);
  }

  /** Two pulleys of one-inch radius and no belt at all still get a distance: pi. */
  lemma CenterToCenterWithoutBelt(sqrt: real -> real)
    requires IsSqrt(sqrt)
    ensures CenterToCenter(sqrt, 1.0, 1.0, 0.0, PITCH_5MM_BELT) == Some(PI as real)
  {
    assert HalfSpan(1.0, 1.0, 0.0, PITCH_5MM_BELT) == -(PI as real);
    SqrtOfSquare(sqrt, PI);
  }

  /**
   * `belt_length_actual` for normal belts: the candidate tooth count is
   * floored and snapped to a multiple of five, and the distance is that of
   * the snapped belt on the same pulleys and pitch.
   */
  function BeltLengthActual(sqrt: real -> real, r1: real, r2: real, teeth: real, pitch: real): (r: (real, Option<real>))
    ensures r.0 == RoundToFive(teeth.Floor) as real
    ensures r.1 == CenterToCenter(sqrt, r1, r2, r.0, pitch)
    ensures r.1.Some? <==> Square(r2 - r1) <= Square(HalfSpan(r1, r2, r.0, pitch))
    ensures IsSqrt(sqrt) && r.1.Some? ==>
      0.0 <= r.1.value && Square(r.1.value) + Square(r2 - r1) == Square(HalfSpan(r1, r2, r.0, pitch))
  {
    var teeth := SnapToFive(teeth);
    (teeth, CenterToCenter(sqrt, r1, r2, teeth, pitch))
  }
}
