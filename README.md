# Pose exercise detectors, modelled in Dafny

This project models the exercise logic of the pose-landmarker sample app:

- **PushUpDetector** counts push-up repetitions. It is a two-state machine (`WAITING_FOR_START` / `WAITING_FOR_END`) fed four angle magnitudes per frame. A gated frame with the arm extended arms it. A later gated bent-arm frame counts one repetition and hands the new count to a callback.
- **PlankDetector** is a debounced plank timer. A valid frame starts a session if none is running. It reports each new whole number of seconds since the start. Three invalid frames in a row end the session and report 0.
- **Measurement** contains the geometry helpers. Only their polynomial parts are modelled:
  - the side of a directed line that a landmark lies on (`pointPosition`);
  - the squared distance inside `distance`;
  - the atan2 arguments |cross| and dot inside `angleOneCommonPoint`.

Files (one module each):

- `alignment.dfy` (`Alignment`): the four angles of a frame and the shared tolerance window `isApproximately`. The near-0-or-180 test is factored out as `IsAlignedToAxis`.
- `traces.dfy` (`Traces`): runs of frames, folded through a per-frame step that collects the values handed to the callback. Also runs of consecutive integers.
- `push_up.dfy` (`PushUp`):
  - `Step`/`Run` specify one frame and a run of frames on the detector's fields taken as a value;
  - the class `PushUpDetector` updates the fields in place and is proved to do exactly `Step`;
  - its ghost history `reported` holds every count handed to the callback.
- `plank.dfy` (`Plank`): the same structure for `PlankDetector`. The time of the frame is the parameter `now` in milliseconds.
- `measurement.dfy` (`Measurement`): the pure geometry parts, plus one lemma per unit-test case.

Callbacks are modelled in two ways:

- each `EvaluatePoseFrame` returns the sequence of values it hands to the callback (none or one);
- the ghost field `reported` accumulates all of them.

Kotlin `Long` division of the elapsed milliseconds truncates toward zero. It is written out in `MillisToSeconds`, so negative elapsed times (a clock that goes back) are modelled exactly. `.toInt()` is written out in `ToInt32` (the low 32 bits, read as a signed integer).

`pointPosition` returns the strings `"left"` and `"right"`; the model keeps them as strings.

## Model

| member | source | states |
|---|---|---|
| Alignment.IsApproximatelyIffWithinDistance | examples/pose_landmarker/android/app/src/main/java/com/google/mediapipe/examples/poselandmarker/PushUpDetector.kt:81-83 | the closed window test holds exactly when \|value - target\| <= tolerance |
| Alignment.WindowEndsIncluded | examples/pose_landmarker/android/app/src/main/java/com/google/mediapipe/examples/poselandmarker/PlankDetector.kt:72-74 | both ends target - tolerance and target + tolerance are accepted (the range is inclusive) |
| Alignment.NegativeToleranceRejects | examples/pose_landmarker/android/app/src/main/java/com/google/mediapipe/examples/poselandmarker/PlankDetector.kt:72-74 | a negative tolerance accepts no value |
| Alignment.WideningTolerance | examples/pose_landmarker/android/app/src/main/java/com/google/mediapipe/examples/poselandmarker/PushUpDetector.kt:81-83 | a larger tolerance accepts every value a smaller one accepts, for the window and for the near-0-or-180 test |
| PushUp.StartAndEndAnglesDisjoint | examples/pose_landmarker/android/app/src/main/java/com/google/mediapipe/examples/poselandmarker/PushUpDetector.kt:54-69 | no elbow angle is both an extended-arm angle (within 20 of 0 or 180) and a bent-arm angle (within 21 of 90) |
| PushUp.StepFromStart | examples/pose_landmarker/android/app/src/main/java/com/google/mediapipe/examples/poselandmarker/PushUpDetector.kt:53-66 | in WAITING_FOR_START a frame moves to WAITING_FOR_END iff all three gates and the extended-arm test hold; the count is unchanged and nothing is reported |
| PushUp.StepFromEnd | examples/pose_landmarker/android/app/src/main/java/com/google/mediapipe/examples/poselandmarker/PushUpDetector.kt:68-77 | in WAITING_FOR_END a gated bent-arm frame adds one to the count, reports the new count and returns to WAITING_FOR_START; any other frame changes nothing and reports nothing |
| PushUp.StepCount | examples/pose_landmarker/android/app/src/main/java/com/google/mediapipe/examples/poselandmarker/PushUpDetector.kt:72-73 | per frame the count stays or grows by exactly one; it grows only from WAITING_FOR_END, and it grows exactly when the new count is reported |
| PushUp.RunAccounting | examples/pose_landmarker/android/app/src/main/java/com/google/mediapipe/examples/poselandmarker/PushUpDetector.kt:52-78 | over any run the count never decreases, the reported values are exactly the successive new counts, and the starts plus the pending start balance the counted repetitions plus the one left pending |
| PushUp.FreshCountAtMostStarts | examples/pose_landmarker/android/app/src/main/java/com/google/mediapipe/examples/poselandmarker/PushUpDetector.kt:14-15 | from a fresh detector the count is at most the number of START to END transitions, and the callback has seen exactly 1, 2, ..., count |
| PushUp.BentArmFramesDoNotRecount | examples/pose_landmarker/android/app/src/main/java/com/google/mediapipe/examples/poselandmarker/PushUpDetector.kt:52-66 | in WAITING_FOR_START, bent-arm frames alone change nothing and report nothing |
| PushUp.ExtendedArmFramesKeepWaiting | examples/pose_landmarker/android/app/src/main/java/com/google/mediapipe/examples/poselandmarker/PushUpDetector.kt:68-77 | in WAITING_FOR_END, extended-arm frames alone change nothing and report nothing |
| PushUp.OneRepetition | examples/pose_landmarker/android/app/src/main/java/com/google/mediapipe/examples/poselandmarker/PushUpDetector.kt:52-78 | one or more gated extended-arm frames, then a gated bent-arm frame, then any bent-arm frames, count exactly one repetition and report 1 once |
| PushUp.PushUpDetector.constructor | examples/pose_landmarker/android/app/src/main/java/com/google/mediapipe/examples/poselandmarker/PushUpDetector.kt:14-15 | a new detector is in WAITING_FOR_START with count 0, and nothing has been reported |
| PushUp.PushUpDetector.EvaluatePoseFrame | examples/pose_landmarker/android/app/src/main/java/com/google/mediapipe/examples/poselandmarker/PushUpDetector.kt:32-79 | the new fields and the values reported are exactly those of Step; the history grows by what was reported, and it stays 1, 2, ..., count |
| PushUp.PushUpDetector.GetRepetitionCount | examples/pose_landmarker/android/app/src/main/java/com/google/mediapipe/examples/poselandmarker/PushUpDetector.kt:85 | the count returned is the number of repetitions reported, and the last value reported |
| Plank.MillisToSeconds | examples/pose_landmarker/android/app/src/main/java/com/google/mediapipe/examples/poselandmarker/PlankDetector.kt:58-59 | Long division by 1000 truncates toward zero: floor for a non-negative elapsed time, ceiling for a negative one |
| Plank.ToInt32 | examples/pose_landmarker/android/app/src/main/java/com/google/mediapipe/examples/poselandmarker/PlankDetector.kt:59 | Long.toInt(): a signed 32-bit value congruent to the input modulo 2^32, and equal to it when it already fits |
| Plank.ClearedIsValid | examples/pose_landmarker/android/app/src/main/java/com/google/mediapipe/examples/poselandmarker/PlankDetector.kt:8-10 | the initial fields (no start, duration 0, no invalid frames) satisfy the invariant |
| Plank.SessionStartTestRedundant | examples/pose_landmarker/android/app/src/main/java/com/google/mediapipe/examples/poselandmarker/PlankDetector.kt:50 | while fewer than three invalid frames are pending, a valid frame begins a session exactly when no start time is stored, so the threshold arm of the test is redundant |
| Plank.StepKeepsInv | examples/pose_landmarker/android/app/src/main/java/com/google/mediapipe/examples/poselandmarker/PlankDetector.kt:24-70 | every frame keeps 0 <= invalid frames < 3, a non-negative duration, and duration 0 while no session runs |
| Plank.StepValidFrame | examples/pose_landmarker/android/app/src/main/java/com/google/mediapipe/examples/poselandmarker/PlankDetector.kt:50-63 | a valid frame clears the invalid counter. If it begins a session, it starts at now with duration 0 and reports 0 once. Otherwise it keeps the start, never lowers the duration, and reports a duration exactly when the elapsed whole seconds (now - start) / 1000, truncated, exceed the stored ones; that elapsed value is then the new stored and reported duration |
| Plank.StepReportsAtMostOne | examples/pose_landmarker/android/app/src/main/java/com/google/mediapipe/examples/poselandmarker/PlankDetector.kt:50-63 | a frame hands at most one value to the callback (with one clock reading per frame, a session's first frame reports only 0) |
| Plank.StepInvalidFrame | examples/pose_landmarker/android/app/src/main/java/com/google/mediapipe/examples/poselandmarker/PlankDetector.kt:64-69 | an invalid frame counts one more invalid frame; the third in a row clears the session and reports 0; the first and second report nothing and keep the rest |
| Plank.StepReports | examples/pose_landmarker/android/app/src/main/java/com/google/mediapipe/examples/poselandmarker/PlankDetector.kt:50-69 | one frame reports values that are 0 or above the previous value, and the stored duration is afterwards the last value reported |
| Plank.RunReports | examples/pose_landmarker/android/app/src/main/java/com/google/mediapipe/examples/poselandmarker/PlankDetector.kt:24-70 | over any run the invariant holds, the reported values increase strictly between resets (no second is reported twice in a session), and the stored duration is the last value reported |
| Plank.ValidFramesKeepSession | examples/pose_landmarker/android/app/src/main/java/com/google/mediapipe/examples/poselandmarker/PlankDetector.kt:56-63 | valid frames in a running session keep its start; their reported durations are strictly increasing and all above the stored one; the stored duration never decreases |
| Plank.InvalidFramesBelowThreshold | examples/pose_landmarker/android/app/src/main/java/com/google/mediapipe/examples/poselandmarker/PlankDetector.kt:64-69 | invalid frames that do not reach the threshold only add to the counter |
| Plank.InvalidFramesThenValidFrame | examples/pose_landmarker/android/app/src/main/java/com/google/mediapipe/examples/poselandmarker/PlankDetector.kt:50-56 | one or two invalid frames followed by a valid frame keep the start time, do not lower the duration, clear the counter and report no 0 |
| Plank.ThresholdInvalidFramesClear | examples/pose_landmarker/android/app/src/main/java/com/google/mediapipe/examples/poselandmarker/PlankDetector.kt:64-69 | three invalid frames in a row clear the session and report a single 0 |
| Plank.ElapsedStep | examples/pose_landmarker/android/app/src/main/java/com/google/mediapipe/examples/poselandmarker/PlankDetector.kt:58-59 | moving the clock forward by at most a second adds at most one whole second to the elapsed time |
| Plank.PacedStep | examples/pose_landmarker/android/app/src/main/java/com/google/mediapipe/examples/poselandmarker/PlankDetector.kt:58-63 | one valid frame at most a second after the previous one reports the next second or nothing |
| Plank.PacedFramesReportEverySecond | examples/pose_landmarker/android/app/src/main/java/com/google/mediapipe/examples/poselandmarker/PlankDetector.kt:58-63 | valid frames at most a second apart on a clock that does not go back report every whole second once, in order, up to the one elapsed at the last frame |
| Plank.PlankSession | examples/pose_landmarker/android/app/src/main/java/com/google/mediapipe/examples/poselandmarker/PlankDetector.kt:50-63 | a fresh detector given such frames reports 0 on the first, then exactly 1, 2, ..., T, where T is the whole seconds from the first frame to the last |
| Plank.PlankDetector.constructor | examples/pose_landmarker/android/app/src/main/java/com/google/mediapipe/examples/poselandmarker/PlankDetector.kt:8-10 | a new detector has no start time, duration 0 and no invalid frames, and nothing has been reported |
| Plank.PlankDetector.EvaluatePoseFrame | examples/pose_landmarker/android/app/src/main/java/com/google/mediapipe/examples/poselandmarker/PlankDetector.kt:24-70 | the new fields and the values reported are exactly those of Step at now; the history grows by what was reported; the invariant and the increasing-between-resets history are kept |
| Plank.PlankDetector.Reset | examples/pose_landmarker/android/app/src/main/java/com/google/mediapipe/examples/poselandmarker/PlankDetector.kt:76-81 | clears the start time, the duration and the counter, and reports 0; it restores the object invariant whenever the history before it increases between resets |
| Plank.PlankDetector.GetCurrentDurationSeconds | examples/pose_landmarker/android/app/src/main/java/com/google/mediapipe/examples/poselandmarker/PlankDetector.kt:83 | reads the stored duration without changing anything: the last value reported (0 before any), never negative, and 0 while no session runs |
| Measurement.PointPosition | examples/pose_landmarker/android/app/src/main/java/com/google/mediapipe/examples/poselandmarker/Measurement.kt:36-41 | the result is "left" or "right", and it is "left" exactly when the cross product is non-negative |
| Measurement.PointPositionIsNormalHalfPlane | examples/pose_landmarker/android/app/src/main/java/com/google/mediapipe/examples/poselandmarker/Measurement.kt:36-41 | "left" is exactly the closed half-plane that the line's left-hand normal points into |
| Measurement.PointOnLineIsLeft | examples/pose_landmarker/android/app/src/main/java/com/google/mediapipe/examples/poselandmarker/Measurement.kt:36-41 | every point of the infinite line, inside the segment or beyond it, is "left" |
| Measurement.DegenerateLineIsLeft | examples/pose_landmarker/android/app/src/main/java/com/google/mediapipe/examples/poselandmarker/Measurement.kt:36-41 | a line of zero length puts every point "left" |
| Measurement.ReversedLineSwapsSides | examples/pose_landmarker/android/app/src/main/java/com/google/mediapipe/examples/poselandmarker/Measurement.kt:36-41 | reversing the line negates the cross product, and swaps the side of every point off the line |
| Measurement.PointPositionTranslation | examples/pose_landmarker/android/app/src/main/java/com/google/mediapipe/examples/poselandmarker/Measurement.kt:36-41 | translating the point and the line together does not change the side |
| Measurement.PointAboveHorizontalLineIsLeft | examples/pose_landmarker/android/app/src/test/java/com/google/mediapipe/examples/poselandmarker/MeasurementTest.kt:195-201 | (0.5, 1) is "left" of the line (0,0)-(1,0) |
| Measurement.PointBelowHorizontalLineIsRight | examples/pose_landmarker/android/app/src/test/java/com/google/mediapipe/examples/poselandmarker/MeasurementTest.kt:203-209 | (0.5, -1) is "right" of the line (0,0)-(1,0) |
| Measurement.PointOnDiagonalLineIsLeft | examples/pose_landmarker/android/app/src/test/java/com/google/mediapipe/examples/poselandmarker/MeasurementTest.kt:211-217 | (0.5, 0.5), exactly on the line (0,0)-(1,1), is "left" |
| Measurement.PointWestOfUpwardLineIsLeft | examples/pose_landmarker/android/app/src/test/java/com/google/mediapipe/examples/poselandmarker/MeasurementTest.kt:219-225 | (-1, 0.5) is "left" of the line (0,0)-(0,1) |
| Measurement.PointEastOfUpwardLineIsRight | examples/pose_landmarker/android/app/src/test/java/com/google/mediapipe/examples/poselandmarker/MeasurementTest.kt:227-233 | (1, 0.5) is "right" of the line (0,0)-(0,1) |
| Measurement.PointBeyondSegmentKeepsSide | examples/pose_landmarker/android/app/src/test/java/com/google/mediapipe/examples/poselandmarker/MeasurementTest.kt:235-241 | (2, 1), beyond the end of the segment (0,0)-(1,0), is still "left" |
| Measurement.SquaredDistance | examples/pose_landmarker/android/app/src/main/java/com/google/mediapipe/examples/poselandmarker/Measurement.kt:30-34 | the quantity under the square root is never negative, and is 0 from a point to itself |
| Measurement.SquaredDistanceSymmetric | examples/pose_landmarker/android/app/src/main/java/com/google/mediapipe/examples/poselandmarker/Measurement.kt:30-34 | the squared distance does not depend on the order of the two points |
| Measurement.DistanceUniqueAndSymmetric | examples/pose_landmarker/android/app/src/main/java/com/google/mediapipe/examples/poselandmarker/Measurement.kt:30-34 | at most one non-negative value squares to the squared distance, and it is the same in both directions |
| Measurement.HorizontalDistance | examples/pose_landmarker/android/app/src/test/java/com/google/mediapipe/examples/poselandmarker/MeasurementTest.kt:157-162 | the distance from (0,0) to (3,0) is 3 |
| Measurement.VerticalDistance | examples/pose_landmarker/android/app/src/test/java/com/google/mediapipe/examples/poselandmarker/MeasurementTest.kt:164-169 | the distance from (0,0) to (0,4) is 4 |
| Measurement.DiagonalDistance | examples/pose_landmarker/android/app/src/test/java/com/google/mediapipe/examples/poselandmarker/MeasurementTest.kt:171-176 | the distance from (0,0) to (3,4) is 5 (squared distance 25) |
| Measurement.SamePointDistance | examples/pose_landmarker/android/app/src/test/java/com/google/mediapipe/examples/poselandmarker/MeasurementTest.kt:178-183 | the distance from (2.5,-1.2) to itself is 0 |
| Measurement.NegativeCoordinatesDistance | examples/pose_landmarker/android/app/src/test/java/com/google/mediapipe/examples/poselandmarker/MeasurementTest.kt:185-190 | the squared distance from (-1,-1) to (1,1) is 8 |
| Measurement.AngleArguments | examples/pose_landmarker/android/app/src/main/java/com/google/mediapipe/examples/poselandmarker/Measurement.kt:11-20 | the first atan2 argument, \|cross\| of the edge vectors p2 - p1 and p3 - p2, is never negative |
| Measurement.AngleArgumentsMagnitude | examples/pose_landmarker/android/app/src/main/java/com/google/mediapipe/examples/poselandmarker/Measurement.kt:11-20 | Lagrange's identity: the squares of the two atan2 arguments sum to the product of the squared edge lengths |
| Measurement.AngleArgumentsReversed | examples/pose_landmarker/android/app/src/main/java/com/google/mediapipe/examples/poselandmarker/Measurement.kt:11-20 | walking the three points in the opposite direction gives the same atan2 arguments |
| Measurement.AngleArgumentsCollinear | examples/pose_landmarker/android/app/src/main/java/com/google/mediapipe/examples/poselandmarker/Measurement.kt:11-20 | for collinear points the cross product is 0 and the dot product is t times the first edge's squared length: non-negative going forward (0 degrees), non-positive turning back |
| Measurement.AngleArgumentsPerpendicular | examples/pose_landmarker/android/app/src/main/java/com/google/mediapipe/examples/poselandmarker/Measurement.kt:11-20 | for perpendicular edges the dot product is 0 and \|cross\| squared is the product of the squared edge lengths (90 degrees) |
| Measurement.AngleArgumentsDegenerate | examples/pose_landmarker/android/app/src/main/java/com/google/mediapipe/examples/poselandmarker/Measurement.kt:11-20 | a coincident pair of points gives the arguments (0, 0) |
| Measurement.HorizontalLineAngleArguments | examples/pose_landmarker/android/app/src/test/java/com/google/mediapipe/examples/poselandmarker/MeasurementTest.kt:26-33 | (0,0),(1,0),(2,0) gives atan2(0, 1), which is 0 degrees |
| Measurement.RightAngleArguments | examples/pose_landmarker/android/app/src/test/java/com/google/mediapipe/examples/poselandmarker/MeasurementTest.kt:35-42 | (0,0),(1,0),(1,1) gives atan2(1, 0), which is 90 degrees |
| Measurement.ApexAngleArguments | examples/pose_landmarker/android/app/src/test/java/com/google/mediapipe/examples/poselandmarker/MeasurementTest.kt:44-51 | (0,0),(1,1),(2,0) gives atan2(2, 0), which is 90 degrees |
| Measurement.CoincidentPointsAngleArguments | examples/pose_landmarker/android/app/src/test/java/com/google/mediapipe/examples/poselandmarker/MeasurementTest.kt:53-60 | three equal points give atan2(0, 0), which is 0 degrees |
| Measurement.DiagonalLineAngleArguments | examples/pose_landmarker/android/app/src/test/java/com/google/mediapipe/examples/poselandmarker/MeasurementTest.kt:62-69 | (0,0),(1,1),(2,2) gives atan2(0, 2), which is 0 degrees, not 180 |
| Measurement.UpwardTurnAngleArguments | examples/pose_landmarker/android/app/src/test/java/com/google/mediapipe/examples/poselandmarker/MeasurementTest.kt:71-77 | (0,0),(1,0),(2,1) gives atan2(1, 1), which is 45 degrees |
| Measurement.DownwardTurnAngleArguments | examples/pose_landmarker/android/app/src/test/java/com/google/mediapipe/examples/poselandmarker/MeasurementTest.kt:79-85 | (0,0),(1,0),(2,-1) gives atan2(1, 1), which is 45 degrees |

## Left out

- atan2, the conversion to degrees, PI and sqrt (Measurement.kt:20-21, 33) are floating-point transcendental functions and are not modelled. The model stops at their arguments: a distance is specified by the relation `IsDistance` (`d >= 0` and `d * d` equals the squared distance), and the angle by the atan2 argument pair. The degree values in the rows above are what atan2 gives for those pairs, not proved.
- `angleWithHorizontal` (Measurement.kt:24-28) is only atan2 of a difference vector and a conversion to degrees, so nothing polynomial is left to model. The detectors receive its result as one of their four angles.
- Float arithmetic is modelled as exact `real`: NaN, infinities, rounding and the Float/Double conversions are not modelled.
- The z coordinate of a landmark is not used by the modelled functions and is not modelled.
- The wall clock: `System.currentTimeMillis()` is read twice on a valid frame that starts a session (PlankDetector.kt:52 and :58) and once on every other valid frame. The model reads it once per frame, as the parameter `now`, so only a session's first frame differs: a clock that advances by 1000 ms or more between the two reads could make the source report 0 and then a positive duration at the first frame of a session; the model reports only 0 there.
- The callbacks are modelled as returned sequences plus a ghost history. Their nullability (`?.invoke`) and whatever they do are not modelled.
- The `Log` calls are not modelled, and neither is the unused constant `frameIntervalMillis` (PlankDetector.kt:13).
- Concurrent calls on one detector are not modelled; each method is one atomic step.
- The Android UI that computes the angles and drives the detectors (GalleryFragment.kt) and the landmark index constants (PoseLandmarks.kt) are not part of this model.
- PushUp.PushUpDetector.EvaluatePoseFrame: `repetitionCount` is an unbounded `nat`, so the Kotlin `Int` overflow after 2^31 - 1 repetitions is not modelled.
- Plank.PacedFramesReportEverySecond: proved only for a clock that never goes back, with frames at most a second apart and elapsed times below 2^31 seconds. Outside those bounds the model still follows the source exactly (truncating division, 32-bit wrap), but no lemma describes the reported values there.
- Plank.PlankDetector.EvaluatePoseFrame: `now - start` is an unbounded integer, so an overflow of the Kotlin `Long` subtraction is not modelled.
- Measurement.SquaredDistance: states non-negativity and 0 for equal points only. It does not state that distinct points have a positive squared distance; that fact about nonlinear real arithmetic is not proved here.
- Measurement.AngleArgumentsCollinear: states the sign of the dot product only in non-strict form (>= 0 going forward, <= 0 turning back), for the same reason.
- Measurement.AngleArgumentsPerpendicular: states |cross| squared as the product of the squared edge lengths, rather than |cross| > 0 for edges of non-zero length.
