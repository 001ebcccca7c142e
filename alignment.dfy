/**
 * The tolerance-window test shared by the push-up and the plank detectors,
 * and the four angle magnitudes that both of them consume once per frame.
 *
 * Angles are degrees modelled as `real`; the detectors' callers pass the
 * absolute value of each measured angle, but nothing here depends on that.
 */
module Alignment {
  import opened Measurement

  /** The four angle magnitudes that one frame supplies to a detector. */
  datatype Frame = Frame(
    shoulderHipAnkle: real,          // included angle along shoulder, hip, ankle
    shoulderAnkleHorizontal: real,   // shoulder-to-ankle segment against the horizontal
    elbowWristHorizontal: real,      // elbow-to-wrist segment against the horizontal
    shoulderElbowWrist: real         // included angle at the elbow
  )

  /** `value` lies in the closed window [target - tolerance, target + tolerance]. */
  predicate IsApproximately(value: real, target: real, tolerance: real)
  {
    target - tolerance <= value <= target + tolerance
  }

  /** `value` is near 0 degrees or near 180 degrees, with the same tolerance for both. */
  predicate IsAlignedToAxis(value: real, tolerance: real)
  {
    IsApproximately(value, 0.0, tolerance) || IsApproximately(value, 180.0, tolerance)
  }

  /** The window test agrees with the distance formulation |value - target| <= tolerance. */
  lemma IsApproximatelyIffWithinDistance(value: real, target: real, tolerance: real)
    ensures IsApproximately(value, target, tolerance) <==> Abs(value - target) <= tolerance
  {
  }

  /** Both ends of the window belong to it, whenever the window is not empty. */
  lemma WindowEndsIncluded(target: real, tolerance: real)
    requires tolerance >= 0.0
    ensures IsApproximately(target - tolerance, target, tolerance)
    ensures IsApproximately(target + tolerance, target, tolerance)
  {
  }

  /** A negative tolerance accepts nothing. */
  lemma NegativeToleranceRejects(value: real, target: real, tolerance: real)
    requires tolerance < 0.0
    ensures !IsApproximately(value, target, tolerance)
  {
  }

  /** Widening the tolerance never rejects a value that was accepted. */
  lemma WideningTolerance(value: real, target: real, narrow: real, wide: real)
    requires narrow <= wide
    ensures IsApproximately(value, target, narrow) ==> IsApproximately(value, target, wide)
    ensures IsAlignedToAxis(value, narrow) ==> IsAlignedToAxis(value, wide)
  {
  }
}
