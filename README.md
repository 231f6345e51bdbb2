# contracalc: the timing-belt arithmetic, modelled in Dafny

This project models the `calc` module of contracalc, a small timing-belt calculator.
Given two pulleys' tooth counts and a desired spacing, the program picks a 5 mm belt whose tooth count is a multiple of five.
It then reports the center-to-center distance that belt gives.
Two belt routings are supported: a normal (open) belt and a contra (crossed, twisted) belt.

The model is pure: every function of `calc` is one expression or a chain of `let` rebindings, so each becomes a Dafny `function`, and the properties are `ensures` clauses and lemmas.

- `calc.dfy`, module `Calc`: millimetre-to-inch conversion, the 5 mm and 3 mm pitch constants, and the pitch diameter of a pulley.
  It also holds Rust's `%` on `f64` (`RemFive`) and the tooth-count rule shared by both `belt_length_actual` functions (`SnapToFive`).
  `RoundToFive` is an independent reference for that rule on whole numbers, and the rule is proved equal to it.
- `normal.dfy`, module `Normal`: `normal::center_to_center` and `normal::belt_length_actual`.
- `contra.dfy`, module `Contra`: `contra::center_to_center` and `contra::belt_length_actual`.
- `panels.dfy`, module `Panels`: the caller's side in `main`.
  This covers the belt length a desired spacing needs (both routings), the floor in 5 mm teeth, and the whole panel computation.
  The solvers are proved to invert those lengths.

How the model represents the program's numbers:

- `f64` values are Dafny `real`s.
- Pi is `Calc.PI`, a constant with no value given, only the bounds 3.14159 < pi < 3.14160.
- The square root is a parameter `sqrt: real -> real` of every function that uses it.
  Lemmas that need its meaning require `IsSqrt(sqrt)`: for every x >= 0, sqrt(x) >= 0 and sqrt(x)^2 = x.
  Nothing is assumed below zero.
- Where the program takes the square root of a negative number, it computes NaN; there the solvers return `None`.
- Where the contra panel divides by a desired spacing of zero, it computes infinity or NaN; there `ContraBeltLength` returns `None`.

Behaviour of the code that the proofs bring out:

- Below zero, Rust's remainder keeps the dividend's sign, so a negative floor never takes the round-up branch.
  Subtracting that negative remainder always moves the count toward zero, to the next multiple of five: -3 goes to 0 and -8 goes to -5.
  From zero up it is round-half-up to the nearest multiple of five: 47 goes to 45 and 48 goes to 50.
- The documentation of both `belt_length_actual` functions (src/main.rs:33-35 and 56-57) and the contra panel's text (src/main.rs:127) promise the tooth count closest to the desired one.
  The promise holds for whole candidates from zero up (`Calc.RoundToFiveIsNearest`).
  Below zero the count moves toward zero instead: -3 gives 0 and -13 gives -10, although -5 and -15 are nearer.
  The code also floors the candidate before rounding (src/main.rs:37 and 59, and the callers at 123 and 149), so a fractional candidate can miss it.
  A needed length of 47.9 teeth is reported as 45, although 50 is nearer; 47.1 gives 45 too, which is the nearest there (`Calc.SnapToFiveMissesNearest`).
  What the code does guarantee from zero up is that the reported count is at most 2 above the candidate and less than 3 below it (`Calc.SnapToFiveWithinBounds`).
- The normal solver squares the straight run (n p - pi (r1 + r2)) / 2.
  So a belt of length L and a belt of length 2 pi (r1 + r2) - L get the same distance (`Normal.CenterToCenterMirror`).
  A belt too short to wrap the pulleys still gets a distance: with two pulleys of one-inch radius and no belt, the answer is pi.
- The contra solver takes the larger root of 8 C^2 + g C + (d1 + d2)^2 = 0.
  That root is positive exactly when g < 0, that is when the belt is longer than (pi / 2)(d1 + d2).
  A shorter belt whose discriminant is still non-negative gets a negative distance, not NaN.
  Fed the exact length for a desired spacing D, the solver gives back D only when 8 D^2 >= (d1 + d2)^2.
  Otherwise it gives the other root, (d1 + d2)^2 / (8 D).
  That case needs D < (d1 + d2) / (2 sqrt 2), less than (d1 + d2) / 2, so the pulleys would overlap: no physical layout reaches it.

## Model

| member | source | states |
|---|---|---|
| `Calc.Square` | src/main.rs:30 | `f64::powi(x, 2)`, as used at src/main.rs:30 and 52, is never negative |
| `Calc.MmToInches` | src/main.rs:7-9 | the result times 25.4 is the input in millimetres, and it is positive exactly when the input is |
| `Calc.PitchesAreConvertedMillimetres` | src/main.rs:11-15 | `PITCH_5MM_BELT` and `PITCH_3MM_BELT` are `mm_to_inches(5)` and `mm_to_inches(3)`, and 0 < 3 mm pitch < 5 mm pitch |
| `Calc.Diameter5mm` | src/main.rs:17-20 | pi times the diameter is the pitch times the tooth count (the pitch circle holds `teeth` pitches); the diameter is 0 exactly at 0 teeth and positive exactly for positive counts |
| `Calc.Diameter5mmLinear` | src/main.rs:18-20 | the difference of two diameters is the difference of tooth counts times pitch / pi |
| `Calc.Diameter5mmIncreasing` | src/main.rs:18-20 | more teeth give a strictly larger diameter |
| `Calc.RemFive` | src/main.rs:38 | Rust's `x % 5.0` lies in [0, 5) for x >= 0 and in (-5, 0] for x <= 0, and x minus it is five times x / 5 truncated toward zero |
| `Calc.RemFiveOfWhole` | src/main.rs:38 | on a whole number the Rust remainder is Dafny's `n % 5` from zero up and `-((-n) % 5)` below zero |
| `Calc.SnapToFive` | src/main.rs:37-38 | floor, then move up when the remainder is at least 2.5 and down otherwise, equals the reference rule `RoundToFive` applied to the floor |
| `Calc.RoundToFive` | src/main.rs:37-38 | the reference rule gives a multiple of five; from zero up it is within 2 of the count; below zero it lies between the count and 0, at most 4 above the count |
| `Calc.RoundToFiveByRemainder` | src/main.rs:38 | from zero up, remainders 0, 1, 2 round down to n - n mod 5 and remainders 3, 4 round up to n + (5 - n mod 5); below zero the count moves up by (-n) mod 5, to the multiple of five toward zero |
| `Calc.RoundToFiveIsNearest` | src/main.rs:38 | from zero up, no multiple of five is closer to the count than the rounded one |
| `Calc.RoundToFiveMonotone` | src/main.rs:37-38 | a <= b implies rounded a <= rounded b |
| `Calc.RoundToFiveFixesMultiples` | src/main.rs:38 | a multiple of five is returned unchanged |
| `Calc.SnapToFiveMonotone` | src/main.rs:37-38 | x <= y implies snap(x) <= snap(y) on any real candidates |
| `Calc.SnapToFiveIdempotent` | src/main.rs:37-38 | snapping a snapped count changes nothing |
| `Calc.SnapToFiveKeepsMultiples` | src/main.rs:37-38 | a candidate whose floor is a multiple of five snaps to that floor |
| `Calc.SnapToFiveOfFloor` | src/main.rs:123 | the caller's own floor before `belt_length_actual` changes nothing |
| `Calc.SnapToFiveWithinBounds` | src/main.rs:37-38 | from zero up, the snapped count minus the candidate lies in (-3, 2] |
| `Calc.SnapToFiveMissesNearest` | src/main.rs:33-38 | against the "closest" promise of the documentation: the candidate 47.9 is reported as 45, farther from it than 50; -3 and -13 are reported as 0 and -10, farther from them than -5 and -15 |
| `Calc.SnapToFiveExamples` | src/main.rs:37-38 | 47 gives 45, 48 gives 50, 47.9 gives 45, -3 gives 0, -8 gives -5 |
| `Normal.HalfSpan` | src/main.rs:52 | the belt is the two half-wraps pi (r1 + r2) plus twice the run, and the run is non-negative exactly when the belt is at least the half-wraps |
| `Normal.CenterToCenter` | src/main.rs:50-54 | a distance exists exactly when ((n p - pi (r1 + r2)) / 2)^2 >= (r2 - r1)^2; it is non-negative and with the radius difference forms a right triangle whose hypotenuse is that straight run |
| `Normal.CenterToCenterSymmetric` | src/main.rs:50-54 | swapping r1 and r2 gives the same result |
| `Normal.CenterToCenterMirror` | src/main.rs:51-53 | belts of length L and 2 pi (r1 + r2) - L get the same result |
| `Normal.CenterToCenterWithoutBelt` | src/main.rs:51-53 | two pulleys of one-inch radius and zero teeth get the distance pi, not NaN |
| `Normal.BeltLengthActual` | src/main.rs:58-63 | the tooth count is `RoundToFive` of the floor of the candidate; the distance is the normal solver at that count with the same radii and pitch, with the solver's existence condition and right-triangle relation at that count |
| `Contra.Generic` | src/main.rs:28 | the coefficient g is negative exactly when the belt is longer than (pi / 2)(d1 + d2) |
| `Contra.CenterToCenter` | src/main.rs:27-31 | a distance exists exactly when g^2 >= 32 (d1 + d2)^2 with g = 2 pi (d1 + d2) - 4 n p; it solves 8 C^2 + g C + (d1 + d2)^2 = 0 and is its larger root (16 C >= -g) |
| `Contra.CenterToCenterSymmetric` | src/main.rs:27-31 | swapping d1 and d2 gives the same result |
| `Contra.CenterToCenterSign` | src/main.rs:28-30 | with d1 + d2 != 0 the distance is never 0, and it is positive exactly when g < 0 |
| `Contra.CenterToCenterWithoutBelt` | src/main.rs:28-30 | two pulleys of one-inch diameter and zero teeth get a negative distance, not NaN |
| `Contra.BeltLengthActual` | src/main.rs:36-41 | the tooth count is `RoundToFive` of the floor of the candidate; the distance is the contra solver at that count with the same diameters and pitch, with the solver's existence condition and root property at that count |
| `Panels.NormalBeltLength` | src/main.rs:141-144 | the length is at least pi (r1 + r2), and its straight run squared is the desired spacing squared plus the radius difference squared |
| `Panels.ContraBeltLength` | src/main.rs:116-118 | a length exists exactly when the desired spacing is not 0, and the spacing is a root of that length's crossed-belt quadratic |
| `Panels.NormalRoundTrip` | src/main.rs:144 | a belt exactly as long as a spacing D >= 0 needs is solved back to D |
| `Panels.NormalSolverInvertsLength` | src/main.rs:50-54 | a belt no shorter than pi (r1 + r2) whose distance exists is exactly as long as that distance needs |
| `Panels.ContraRoundTrip` | src/main.rs:116-118 | a belt exactly as long as a spacing D > 0 needs is solved back to D when (d1 + d2)^2 <= 8 D^2, and otherwise to (d1 + d2)^2 / (8 D) |
| `Panels.ContraSolverInvertsLength` | src/main.rs:27-31 | a non-zero contra distance C, converted back to a length, gives exactly n p |
| `Panels.ReconcilersAgreeOnTeeth` | src/main.rs:59-60 | both `belt_length_actual` functions report the same tooth count for the same candidate, whatever the pulleys and pitch |
| `Panels.NormalPanel` | src/main.rs:139-151 | the reported tooth count is a whole multiple of five, namely `RoundToFive` of the floor of the needed length in 5 mm teeth, and from a non-negative need it lies in (-3, 2] of it; the reported distance is the normal solver at that count on the radii of the two pulleys |
| `Panels.ContraPanel` | src/main.rs:108-125 | a result exists exactly when the desired spacing is not 0; its tooth count is a whole multiple of five, namely `RoundToFive` of the floor of the needed length in 5 mm teeth, and from a non-negative need it lies in (-3, 2] of it; the reported distance is the contra solver at that count on the diameters of the two pulleys |
| `Panels.NormalPanelExact` | src/main.rs:139-151 | when the needed length is exactly 5k teeth of 5 mm, the panel reports 5k teeth and the desired spacing |
| `Panels.ContraPanelExact` | src/main.rs:108-125 | when the needed length is exactly 5k teeth of 5 mm and 8 D^2 >= (d1 + d2)^2, the panel reports 5k teeth and the desired spacing |

## Left out

- The window, the widgets, the per-frame closure and the text formatting in `main` (src/main.rs:83-157). They are presentation with no logic of their own. Only the arithmetic of the two panels is modelled, in `Panels`.
- The `support` module (src/main.rs:1), which starts the window and the event loop. It is not part of this model.
- IEEE-754 behaviour: rounding error, NaN and infinity. Arithmetic is exact over `real`. NaN from a negative radicand and the division by a zero desired spacing become `None`; where NaN would flow on into the tooth count, the model stops at `None` too.
- The `f32` precision of the desired-spacing field (src/main.rs:88, 108, 139). The spacing is a `real`.
- The numerical values of pi and of square roots. Pi is known only by its bounds, and `sqrt` only by `IsSqrt`, so concrete distances such as 1.805 in are not computed.
- `PITCH_3MM_BELT` is defined in the program but never used by it, so only its value is modelled.
- This revision of the program has no unrounded floor and ceiling tooth-count variants, so none is modelled.
