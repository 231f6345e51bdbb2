/*
 * The two calculator panels: from the tooth counts of two pulleys and a
 * desired spacing, the belt length that spacing needs, its floor in 5 mm
 * teeth, and the belt the program reports (a multiple of five teeth and its
 * center-to-center distance). The widgets and the text formatting around them
 * are not modelled.
 */
module Panels {
  import opened Calc
  import Normal
  import Contra

  /**
   * The length of a normal belt that holds pulleys of radii r1 and r2 at
   * `desired` apart: half of each pulley plus two straight runs.
   */
  function NormalBeltLength(sqrt: real -> real, r1: real, r2: real, desired: real): (length: real)
    ensures IsSqrt(sqrt) ==>
      && PI * (r1 + r2) <= length
      && Square(Normal.HalfSpan(r1, r2, length, 1.0)) == Square(desired) + Square(r2 - r1)
  {
    var run := sqrt(Square(desired) + Square(r2 - r1));
    assert Normal.HalfSpan(r1, r2, PI * (r1 + r2) + 2.0 * run, 1.0) == run;
    PI * (r1 + r2) + 2.0 * sqrt(Square(desired) + Square(r2 - r1))
  }

  /**
   * The length of a contra belt that holds pulleys of diameters d1 and d2 at
   * `desired` apart. `None` at a desired spacing of zero, where the program
   * divides by zero (the form's initial value).
   */
  function ContraBeltLength(d1: real, d2: real, desired: real): (length: Option<real>)
    ensures length.Some? <==> desired != 0.0
    ensures length.Some? ==>
      8.0 * Square(desired) + Contra.Generic(d1, d2, length.value, 1.0) * desired + Square(d1 + d2) == 0.0
  {
    if desired == 0.0 then
      None
    else
      var l := desired * 2.0 + PI / 2.0 * (d1 + d2) + Square(d1 + d2) / 4.0 / desired;
      assert Square(d1 + d2) / 4.0 / desired * desired == Square(d1 + d2) / 4.0;
      Some(l)
  }

  /**
   * A normal belt exactly as long as the desired spacing needs is solved back
   * to that spacing.
   */
  lemma NormalRoundTrip(sqrt: real -> real, r1: real, r2: real, desired: real, teeth: real, pitch: real)
    requires IsSqrt(sqrt)
    requires 0.0 <= desired
    requires teeth * pitch == NormalBeltLength(sqrt, r1, r2, desired)
    ensures Normal.CenterToCenter(sqrt, r1, r2, teeth, pitch) == Some(desired)
  {
    var run := sqrt(Square(desired) + Square(r2 - r1));
    assert Normal.HalfSpan(r1, r2, teeth, pitch) == run;
    assert Square(run) - Square(r2 - r1) == Square(desired);
    SqrtOfSquare(sqrt, desired);
  }

  /**
   * Conversely, a normal belt at least as long as the two half-wraps, when the
   * solver answers, is exactly as long as its answer needs.
   */
  lemma NormalSolverInvertsLength(sqrt: real -> real, r1: real, r2: real, teeth: real, pitch: real)
    requires IsSqrt(sqrt)
    requires PI * (r1 + r2) <= teeth * pitch
    requires Normal.CenterToCenter(sqrt, r1, r2, teeth, pitch).Some?
    ensures NormalBeltLength(sqrt, r1, r2, Normal.CenterToCenter(sqrt, r1, r2, teeth, pitch).value) == teeth * pitch
  {
    var c := Normal.CenterToCenter(sqrt, r1, r2, teeth, pitch).value;
    var run := Normal.HalfSpan(r1, r2, teeth, pitch);
    assert Square(c) + Square(r2 - r1) == Square(run);
    SqrtOfSquare(sqrt, run);
  }

  /**
   * A contra belt exactly as long as the desired spacing needs is solved back
   * to that spacing when 8 desired^2 >= (d1 + d2)^2; on closer pulleys the
   * solver answers the other root of the quadratic, (d1 + d2)^2 / (8 desired).
   */
  lemma ContraRoundTrip(sqrt: real -> real, d1: real, d2: real, desired: real, teeth: real, pitch: real)
    requires IsSqrt(sqrt)
    requires 0.0 < desired
    requires ContraBeltLength(d1, d2, desired) == Some(teeth * pitch)
    ensures Contra.CenterToCenter(sqrt, d1, d2, teeth, pitch)
         == Some(if Square(d1 + d2) <= 8.0 * Square(desired) then desired else Square(d1 + d2) / (8.0 * desired))
  {
    var s := Square(d1 + d2);
    var e := s / desired;
    var g := Contra.Generic(d1, d2, teeth, pitch);
    assert e * desired == s;
    assert g == -8.0 * desired - e;
    LargerRootOfLength(sqrt, desired, e, g, s);
    if 8.0 * Square(desired) < s {
      OverEight(s, desired);
    }
  }

  /**
   * The crossed-belt quadratic of a length built from spacing D, with
   * e = (d1 + d2)^2 / D, has the discriminant (8 D - e)^2, and its larger root
   * is D when D is the larger of the two roots D and e / 8.
   */
  lemma LargerRootOfLength(sqrt: real -> real, desired: real, e: real, g: real, s: real)
    requires IsSqrt(sqrt)
    requires 0.0 < desired
    requires e * desired == s
    requires g == -8.0 * desired - e
    ensures 0.0 <= Square(g) - 32.0 * s
    ensures (-g + sqrt(Square(g) - 32.0 * s)) / 16.0 == (if s <= 8.0 * Square(desired) then desired else e / 8.0)
  {
    assert Square(g) - 32.0 * s == Square(8.0 * desired - e) by {
      assert Square(g) == 64.0 * Square(desired) + 16.0 * (e * desired) + Square(e);
      assert Square(8.0 * desired - e) == 64.0 * Square(desired) - 16.0 * (e * desired) + Square(e);
    }
    assert Mul(desired, 8.0 * desired - e) == 8.0 * Square(desired) - s;
    if e <= 8.0 * desired {
      SqrtOfSquare(sqrt, 8.0 * desired - e);
      if e < 8.0 * desired {
        MulPositive(desired, 8.0 * desired - e);
      }
    } else {
      assert Square(8.0 * desired - e) == Square(e - 8.0 * desired);
      SqrtOfSquare(sqrt, e - 8.0 * desired);
      MulPositive(desired, e - 8.0 * desired);
    }
  }

  /** (s / D) / 8 is s / (8 D). */
  lemma OverEight(s: real, desired: real)
    requires desired != 0.0
    ensures s / desired / 8.0 == s / (8.0 * desired)
  {
    var r := s / desired;
    var q := s / (8.0 * desired);
    assert r * desired == s;
    assert (8.0 * q) * desired == s;
    assert Mul(8.0 * q - r, desired) == 0.0;
    ZeroFactor(8.0 * q - r, desired);
  }

  /**
   * Conversely, a contra belt whose solved spacing c is not zero is exactly as
   * long as spacing c needs.
   */
  lemma ContraSolverInvertsLength(sqrt: real -> real, d1: real, d2: real, teeth: real, pitch: real)
    requires IsSqrt(sqrt)
    requires Contra.CenterToCenter(sqrt, d1, d2, teeth, pitch).Some?
    requires Contra.CenterToCenter(sqrt, d1, d2, teeth, pitch).value != 0.0
    ensures ContraBeltLength(d1, d2, Contra.CenterToCenter(sqrt, d1, d2, teeth, pitch).value) == Some(teeth * pitch)
  {
    var c := Contra.CenterToCenter(sqrt, d1, d2, teeth, pitch).value;
    var l := ContraBeltLength(d1, d2, c).value;
    var gl := Contra.Generic(d1, d2, l, 1.0);
    var gt := Contra.Generic(d1, d2, teeth, pitch);
    assert gl * c == -(8.0 * Square(c) + Square(d1 + d2));
    assert gt * c == -(8.0 * Square(c) + Square(d1 + d2));
    assert Mul(gl - gt, c) == 0.0;
    ZeroFactor(gl - gt, c);
  }

  /** A zero product with a non-zero factor has a zero other factor. */
  lemma ZeroFactor(a: real, b: real)
    requires Mul(a, b) == 0.0 && b != 0.0
    ensures a == 0.0
  {
    if 0.0 < a && 0.0 < b {
      MulPositive(a, b);
    } else if 0.0 < a && b < 0.0 {
      assert Mul(a, -b) == -Mul(a, b);
      MulPositive(a, -b);
    } else if a < 0.0 && 0.0 < b {
      assert Mul(-a, b) == -Mul(a, b);
      MulPositive(-a, b);
    } else if a < 0.0 && b < 0.0 {
      assert Mul(-a, -b) == Mul(a, b);
      MulPositive(-a, -b);
    }
  }

  /**
   * Both routings report the same tooth count for the same candidate: the
   * rounding rule does not depend on the pulleys, the pitch or the routing.
   */
  lemma ReconcilersAgreeOnTeeth(sqrt: real -> real, r1: real, r2: real, d1: real, d2: real, teeth: real, pitch1: real, pitch2: real)
    ensures Normal.BeltLengthActual(sqrt, r1, r2, teeth, pitch1).0 == Contra.BeltLengthActual(sqrt, d1, d2, teeth, pitch2).0
  {
  }

  /**
   * The normal-belt panel: radii from the tooth counts, the belt length for
   * the desired spacing, its floor in 5 mm teeth, and the reconciled belt.
   */
  function NormalPanel(sqrt: real -> real, teeth1: i32, teeth2: i32, desired: real): (r: (real, Option<real>))
    ensures r.0 == r.0.Floor as real && r.0.Floor % 5 == 0
    ensures var r1 := Diameter5mm(teeth1) / 2.0;
      var r2 := Diameter5mm(teeth2) / 2.0;
      var needed := NormalBeltLength(sqrt, r1, r2, desired) / PITCH_5MM_BELT;
      && r.0 == RoundToFive(needed.Floor) as real
      && r.1 == Normal.CenterToCenter(sqrt, r1, r2, r.0, PITCH_5MM_BELT)
      && (0.0 <= needed ==> -3.0 < r.0 - needed <= 2.0)
  {
    var r1 := Diameter5mm(teeth1) / 2.0;
    var r2 := Diameter5mm(teeth2) / 2.0;
    var length := NormalBeltLength(sqrt, r1, r2, desired);
    SnapToFiveOfFloor(length / PITCH_5MM_BELT);
    assert 0.0 <= length / PITCH_5MM_BELT ==> -3.0 < SnapToFive(length / PITCH_5MM_BELT) - length / PITCH_5MM_BELT <= 2.0 by {
      if 0.0 <= length / PITCH_5MM_BELT {
        SnapToFiveWithinBounds(length / PITCH_5MM_BELT);
      }
    }
    Normal.BeltLengthActual(sqrt, r1, r2, (length / PITCH_5MM_BELT).Floor as real, PITCH_5MM_BELT)
  }

  /**
   * The contra-belt panel: diameters from the tooth counts, the belt length
   * for the desired spacing, its floor in 5 mm teeth, and the reconciled belt;
   * `None` at a desired spacing of zero.
   */
  function ContraPanel(sqrt: real -> real, teeth1: i32, teeth2: i32, desired: real): (r: Option<(real, Option<real>)>)
    ensures r.Some? <==> desired != 0.0
    ensures r.Some? ==> r.value.0 == r.value.0.Floor as real && r.value.0.Floor % 5 == 0
    ensures r.Some? ==>
      var d1 := Diameter5mm(teeth1);
      var d2 := Diameter5mm(teeth2);
      var needed := ContraBeltLength(d1, d2, desired).value / PITCH_5MM_BELT;
      && r.value.0 == RoundToFive(needed.Floor) as real
      && r.value.1 == Contra.CenterToCenter(sqrt, d1, d2, r.value.0, PITCH_5MM_BELT)
      && (0.0 <= needed ==> -3.0 < r.value.0 - needed <= 2.0)
  {
    var d1 := Diameter5mm(teeth1);
    var d2 := Diameter5mm(teeth2);
    match ContraBeltLength(d1, d2, desired)
    case None => None
    case Some(length) =>
      SnapToFiveOfFloor(length / PITCH_5MM_BELT);
      assert 0.0 <= length / PITCH_5MM_BELT ==> -3.0 < SnapToFive(length / PITCH_5MM_BELT) - length / PITCH_5MM_BELT <= 2.0 by {
        if 0.0 <= length / PITCH_5MM_BELT {
          SnapToFiveWithinBounds(length / PITCH_5MM_BELT);
        }
      }
      Some(Contra.BeltLengthActual(sqrt, d1, d2, (length / PITCH_5MM_BELT).Floor as real, PITCH_5MM_BELT))
  }

  /**
   * When the belt the desired spacing needs is exactly a multiple of five 5 mm
   * teeth, the normal panel reports that belt and the desired spacing itself.
   */
  lemma NormalPanelExact(sqrt: real -> real, teeth1: i32, teeth2: i32, desired: real, k: int)
    requires IsSqrt(sqrt)
    requires 0.0 <= desired
    requires NormalBeltLength(sqrt, Diameter5mm(teeth1) / 2.0, Diameter5mm(teeth2) / 2.0, desired)
          == (5 * k) as real * PITCH_5MM_BELT
    ensures NormalPanel(sqrt, teeth1, teeth2, desired) == ((5 * k) as real, Some(desired))
  {
    var r1 := Diameter5mm(teeth1) / 2.0;
    var r2 := Diameter5mm(teeth2) / 2.0;
    var needed := NormalBeltLength(sqrt, r1, r2, desired) / PITCH_5MM_BELT;
    assert needed.Floor == 5 * k by {
      assert needed == (5 * k) as real;
    }
    RoundToFiveOfMultiple(k);
    NormalRoundTrip(sqrt, r1, r2, desired, (5 * k) as real, PITCH_5MM_BELT);
  }

  /**
   * When the belt the desired spacing needs is exactly a multiple of five 5 mm
   * teeth and the spacing is wide enough for the larger root, the contra panel
   * reports that belt and the desired spacing itself.
   */
  lemma ContraPanelExact(sqrt: real -> real, teeth1: i32, teeth2: i32, desired: real, k: int)
    requires IsSqrt(sqrt)
    requires 0.0 < desired
    requires Square(Diameter5mm(teeth1) + Diameter5mm(teeth2)) <= 8.0 * Square(desired)
    requires ContraBeltLength(Diameter5mm(teeth1), Diameter5mm(teeth2), desired)
          == Some((5 * k) as real * PITCH_5MM_BELT)
    ensures ContraPanel(sqrt, teeth1, teeth2, desired) == Some(((5 * k) as real, Some(desired)))
  {
    var d1 := Diameter5mm(teeth1);
    var d2 := Diameter5mm(teeth2);
    var needed := ContraBeltLength(d1, d2, desired).value / PITCH_5MM_BELT;
    assert needed.Floor == 5 * k by {
      assert needed == (5 * k) as real;
    }
    RoundToFiveOfMultiple(k);
    ContraRoundTrip(sqrt, d1, d2, desired, (5 * k) as real, PITCH_5MM_BELT);
    var r := ContraPanel(sqrt, teeth1, teeth2, desired);
    assert r.value.0 == (5 * k) as real;
    assert r.value.1 == Contra.CenterToCenter(sqrt, d1, d2, (5 * k) as real, PITCH_5MM_BELT);
  }
}
