/**
 * The push-up repetition counter: a two-state machine fed with the four angle
 * magnitudes of each frame. A frame with the body straight, the body roughly
 * horizontal and the forearm roughly vertical is "gated"; a gated frame with the
 * arm extended arms the machine, and a later gated frame with the elbow bent near
 * 90 degrees counts one repetition and reports the new count.
 *
 * `Step` and `Run` are the specification of one frame and of a run of frames on
 * the detector's fields taken as a value; the class `PushUpDetector` updates
 * those fields in place and is proved against `Step`.
 */
module PushUp {
  import opened Alignment
  import opened Traces

  datatype State = WaitingForStart | WaitingForEnd

  /** The detector's fields as a value. */
  datatype Detector = Detector(state: State, repetitionCount: nat)

  /** The fields after a frame, and the counts handed to the callback during it. */
  type Transition = Outcome<Detector>

  const ShoulderHipAnkleTolerance: real := 30.0
  const ShoulderAnkleHorizontalTolerance: real := 45.0
  const ElbowWristVerticalTolerance: real := 20.0
  const StartAngleTolerance: real := 20.0
  const EndAngleTolerance: real := 21.0

  /** A freshly constructed detector. */
  const Initial: Detector := Detector(WaitingForStart, 0)

  /** Body straight, body roughly horizontal, forearm roughly vertical. */
  predicate BodyGate(f: Frame)
  {
    IsAlignedToAxis(f.shoulderHipAnkle, ShoulderHipAnkleTolerance)
    && IsAlignedToAxis(f.shoulderAnkleHorizontal, ShoulderAnkleHorizontalTolerance)
    && IsApproximately(f.elbowWristHorizontal, 90.0, ElbowWristVerticalTolerance)
  }

  /** Arm extended: the elbow angle is near 0 or near 180 degrees. */
  predicate IsStartAngle(f: Frame)
  {
    IsAlignedToAxis(f.shoulderElbowWrist, StartAngleTolerance)
  }

  /** Arm bent: the elbow angle is near 90 degrees. */
  predicate IsEndAngle(f: Frame)
  {
    IsApproximately(f.shoulderElbowWrist, 90.0, EndAngleTolerance)
  }

  /** One frame, as `evaluatePoseFrame` handles it. */
  function Step(d: Detector, f: Frame): Transition
  {
    match d.state
    case WaitingForStart =>
      if BodyGate(f) && IsStartAngle(f) then Outcome(Detector(WaitingForEnd, d.repetitionCount), [])
      else Outcome(d, [])
    case WaitingForEnd =>
      if BodyGate(f) && IsEndAngle(f) then
        Outcome(Detector(WaitingForStart, d.repetitionCount + 1), [d.repetitionCount + 1])
      else Outcome(d, [])
  }

  /** The frames in order, with everything reported along the way. */
  function Run(d: Detector, frames: seq<Frame>): Transition
  {
    RunSteps(Step, d, frames)
  }

  /** How many frames of the run move the machine from WaitingForStart to WaitingForEnd. */
  function Starts(d: Detector, frames: seq<Frame>): nat
    decreases |frames|
  {
    if frames == [] then 0
    else
      var t := Step(d, frames[0]);
      (if d.state == WaitingForStart && t.after.state == WaitingForEnd then 1 else 0)
      + Starts(t.after, frames[1..])
  }

  /** 1 while a started repetition still waits for its bent-arm frame. */
  function Pending(s: State): nat
  {
    if s == WaitingForEnd then 1 else 0
  }

  // ---------------------------------------------------------------------------
  // One frame

  /** Arm extended and bent arm are never the same frame. */
  lemma StartAndEndAnglesDisjoint(f: Frame)
    ensures !(IsStartAngle(f) && IsEndAngle(f))
  {
  }

  /** In WaitingForStart a frame moves to WaitingForEnd iff it is gated with the arm
      extended; the count is unchanged and nothing is reported. */
  lemma StepFromStart(d: Detector, f: Frame)
    requires d.state == WaitingForStart
    ensures Step(d, f).emitted == []
    ensures Step(d, f).after.repetitionCount == d.repetitionCount
    ensures Step(d, f).after.state == WaitingForEnd <==> BodyGate(f) && IsStartAngle(f)
  {
  }

  /** In WaitingForEnd a gated bent-arm frame adds exactly one to the count, reports the
      new count and returns to WaitingForStart; any other frame changes nothing. */
  lemma StepFromEnd(d: Detector, f: Frame)
    requires d.state == WaitingForEnd
    ensures BodyGate(f) && IsEndAngle(f) ==>
      Step(d, f) == Outcome(Detector(WaitingForStart, d.repetitionCount + 1), [d.repetitionCount + 1])
    ensures !(BodyGate(f) && IsEndAngle(f)) ==> Step(d, f) == Outcome(d, [])
  {
  }

  /** The count never decreases, grows by at most one per frame, and a frame reports
      something exactly when it increments the count, and then reports the new count. */
  lemma StepCount(d: Detector, f: Frame)
    ensures var t := Step(d, f);
      (t.after.repetitionCount == d.repetitionCount && t.emitted == [])
      || (t.after.repetitionCount == d.repetitionCount + 1 && t.emitted == [t.after.repetitionCount]
          && d.state == WaitingForEnd)
  {
  }

  // ---------------------------------------------------------------------------
  // Runs of frames

  /** Over any run the count never decreases; the counts reported are exactly the
      successive new counts; and every repetition counted was started by an
      extended-arm frame (or was already pending): the started repetitions and the
      pending one balance the counted ones and the one left pending. */
  lemma {:induction false} RunAccounting(d: Detector, frames: seq<Frame>)
    ensures var r := Run(d, frames);
      r.after.repetitionCount >= d.repetitionCount
      && r.emitted == Range(d.repetitionCount + 1, r.after.repetitionCount + 1)
      && Starts(d, frames) + Pending(d.state)
         == (r.after.repetitionCount - d.repetitionCount) + Pending(r.after.state)
    decreases |frames|
  {
    if frames != [] {
      var t := Step(d, frames[0]);
      StepCount(d, frames[0]);
      RunAccounting(t.after, frames[1..]);
    }
  }

  /** From a fresh detector the count is at most the number of extended-arm starts,
      and the callback has seen exactly 1, 2, ..., count. */
  lemma FreshCountAtMostStarts(frames: seq<Frame>)
    ensures Run(Initial, frames).after.repetitionCount <= Starts(Initial, frames)
    ensures Run(Initial, frames).emitted == Range(1, Run(Initial, frames).after.repetitionCount + 1)
  {
    RunAccounting(Initial, frames);
  }

  /** After a repetition, bent-arm frames alone report nothing and change nothing:
      only an extended-arm frame can start the next repetition. */
  lemma {:induction false} BentArmFramesDoNotRecount(d: Detector, frames: seq<Frame>)
    requires d.state == WaitingForStart
    requires forall i :: 0 <= i < |frames| ==> IsEndAngle(frames[i])
    ensures Run(d, frames) == Outcome(d, [])
    decreases |frames|
  {
    if frames != [] {
      StartAndEndAnglesDisjoint(frames[0]);
      BentArmFramesDoNotRecount(d, frames[1..]);
    }
  }

  /** While a repetition is pending, extended-arm frames (the user holding the top
      position) report nothing and change nothing. */
  lemma {:induction false} ExtendedArmFramesKeepWaiting(d: Detector, frames: seq<Frame>)
    requires d.state == WaitingForEnd
    requires forall i :: 0 <= i < |frames| ==> IsStartAngle(frames[i])
    ensures Run(d, frames) == Outcome(d, [])
    decreases |frames|
  {
    if frames != [] {
      StartAndEndAnglesDisjoint(frames[0]);
      ExtendedArmFramesKeepWaiting(d, frames[1..]);
    }
  }

  /** One or more gated extended-arm frames, then a gated bent-arm frame and any
      further bent-arm frames, count exactly one repetition, report 1 once and end in
      WaitingForStart. */
  lemma OneRepetition(extended: seq<Frame>, bent: Frame, more: seq<Frame>)
    requires extended != []
    requires forall i :: 0 <= i < |extended| ==> BodyGate(extended[i]) && IsStartAngle(extended[i])
    requires BodyGate(bent) && IsEndAngle(bent)
    requires forall i :: 0 <= i < |more| ==> IsEndAngle(more[i])
    ensures Run(Initial, extended + [bent] + more) == Outcome(Detector(WaitingForStart, 1), [1])
  {
    var armed := Detector(WaitingForEnd, 0);
    var one := Detector(WaitingForStart, 1);
    assert Run(Initial, extended) == Outcome(armed, []) by {
      RunStepsCons(Step, Initial, extended);
      assert forall i :: 0 <= i < |extended[1..]| ==> IsStartAngle(extended[1..][i]) by {
        forall i | 0 <= i < |extended[1..]| ensures IsStartAngle(extended[1..][i]) {
          assert extended[1..][i] == extended[i + 1];
        }
      }
      ExtendedArmFramesKeepWaiting(armed, extended[1..]);
    }
    RunStepsSingle(Step, armed, bent);
    RunStepsAppend(Step, Initial, extended, [bent]);
    RunStepsAppend(Step, Initial, extended + [bent], more);
    BentArmFramesDoNotRecount(one, more);
  }

  // ---------------------------------------------------------------------------
  // The detector object

  class PushUpDetector {
    var state: State
    var repetitionCount: nat
    /** Every count handed to the repetition callback so far, in order. */
    ghost var reported: seq<int>

    /** The callback has seen exactly 1, 2, ..., repetitionCount. */
    ghost predicate Valid()
      reads this
    {
      reported == Range(1, repetitionCount + 1)
    }

    function Snapshot(): Detector
      reads this
    {
      Detector(state, repetitionCount)
    }

    constructor ()
      ensures Valid()
      ensures Snapshot() == Initial && reported == []
    {
      state := WaitingForStart;
      repetitionCount := 0;
      reported := [];
    }

    /** Evaluates one frame; returns the counts handed to the callback (none or one). */
    method EvaluatePoseFrame(shoulderHipAnkleAngle: real, shoulderAnkleAngleWithHorizontal: real,
                             elbowWristAngleWithHorizontal: real, shoulderElbowWristAngle: real)
      returns (emitted: seq<int>)
      requires Valid()
      modifies this
      ensures Valid()
      ensures Outcome(Snapshot(), emitted)
              == Step(old(Snapshot()), Frame(shoulderHipAnkleAngle, shoulderAnkleAngleWithHorizontal,
                                             elbowWristAngleWithHorizontal, shoulderElbowWristAngle))
      ensures reported == old(reported) + emitted
    {
      var isShoulderHipAnkleAligned := IsAlignedToAxis(shoulderHipAnkleAngle, ShoulderHipAnkleTolerance);
      var isShoulderAnkleHorizontal := IsAlignedToAxis(shoulderAnkleAngleWithHorizontal, ShoulderAnkleHorizontalTolerance);
      var isElbowWristVertical := IsApproximately(elbowWristAngleWithHorizontal, 90.0, ElbowWristVerticalTolerance);
      emitted := [];
      match state {
        case WaitingForStart =>
          var isStartAngle := IsAlignedToAxis(shoulderElbowWristAngle, StartAngleTolerance);
          if isShoulderHipAnkleAligned && isShoulderAnkleHorizontal && isElbowWristVertical && isStartAngle {
            state := WaitingForEnd;
          }
        case WaitingForEnd =>
          var isEndAngle := IsApproximately(shoulderElbowWristAngle, 90.0, EndAngleTolerance);
          if isShoulderHipAnkleAligned && isShoulderAnkleHorizontal && isElbowWristVertical && isEndAngle {
            repetitionCount := repetitionCount + 1;
            emitted := [repetitionCount];
            RangeSnoc(1, repetitionCount);
            reported := reported + emitted;
            state := WaitingForStart;
          }
      }
    }

    /** The current count: the number of repetitions reported, and the last one reported. */
    function GetRepetitionCount(): (c: int)
      requires Valid()
      reads this
      ensures c == |reported|
      ensures c > 0 ==> reported[|reported| - 1] == c
    {
      if repetitionCount > 0 then RangeAt(1, repetitionCount + 1, repetitionCount - 1); repetitionCount
      else repetitionCount
    }
  }
}
