/**
 * The plank duration timer. A valid frame starts a session when none is running
 * and reports the whole seconds elapsed since its start each time that number
 * grows; three invalid frames in a row end the session and report 0.
 *
 * The time of the frame, which the detector reads from the wall clock, is the
 * parameter `now` (milliseconds). `Step` and `Run` specify one frame and a run of
 * frames on the detector's fields taken as a value; the class `PlankDetector`
 * updates those fields in place and is proved against `Step`.
 */
module Plank {
  import opened Alignment
  import opened Traces

  datatype Option<T> = None | Some(value: T)

  /** The detector's fields as a value. */
  datatype Session = Session(startTimeMillis: Option<int>, lastValidDurationSec: int,
                             consecutiveInvalidFrames: int)

  /** The fields after a frame, and the durations handed to the callback during it. */
  type Transition = Outcome<Session>

  /** A frame together with the time at which it is evaluated. */
  datatype TimedFrame = TimedFrame(frame: Frame, now: int)

  const InvalidThreshold: int := 3
  const ShoulderHipAnkleTolerance: real := 30.0
  const ShoulderAnkleHorizontalTolerance: real := 20.0
  const ElbowWristHorizontalTolerance: real := 10.0
  const ShoulderElbowWristAngleTolerance: real := 20.0

  /** A freshly constructed detector, and the fields after a reset. */
  const Cleared: Session := Session(None, 0, 0)

  const TwoToThe31: int := 0x8000_0000
  const TwoToThe32: int := 0x1_0000_0000

  /** Milliseconds to whole seconds with Kotlin's Long division, which truncates
      toward zero (Dafny's `/` rounds toward negative infinity). */
  function MillisToSeconds(ms: int): (sec: int)
    ensures ms >= 0 ==> 1000 * sec <= ms < 1000 * sec + 1000
    ensures ms < 0 ==> 1000 * sec - 1000 < ms <= 1000 * sec
  {
    if ms >= 0 then ms / 1000 else -((-ms) / 1000)
  }

  /** Kotlin's Long.toInt(): the low 32 bits read as a signed integer. */
  function ToInt32(x: int): (r: int)
    ensures -TwoToThe31 <= r < TwoToThe31
    ensures (r - x) % TwoToThe32 == 0
    ensures -TwoToThe31 <= x < TwoToThe31 ==> r == x
  {
    var m := x % TwoToThe32;
    if m >= TwoToThe31 then m - TwoToThe32 else m
  }

  /** The whole seconds from `start` to `now`, as the detector computes them. */
  function ElapsedSeconds(start: int, now: int): int
  {
    ToInt32(MillisToSeconds(now - start))
  }

  /** The four posture tests of a plank. */
  predicate IsValidPlank(f: Frame)
  {
    IsAlignedToAxis(f.shoulderHipAnkle, ShoulderHipAnkleTolerance)
    && IsAlignedToAxis(f.shoulderAnkleHorizontal, ShoulderAnkleHorizontalTolerance)
    && IsAlignedToAxis(f.elbowWristHorizontal, ElbowWristHorizontalTolerance)
    && IsApproximately(f.shoulderElbowWrist, 90.0, ShoulderElbowWristAngleTolerance)
  }

  /** The test that begins a new session on a valid frame. */
  predicate StartsSession(s: Session)
  {
    s.consecutiveInvalidFrames >= InvalidThreshold || s.startTimeMillis.None?
  }

  /** One frame, as `evaluatePoseFrame` handles it. */
  function Step(s: Session, f: Frame, now: int): Transition
  {
    if IsValidPlank(f) then
      if StartsSession(s) then
        // a new session starts at `now` with duration 0, reported at once; the
        // elapsed time measured right after is from `now` to `now`, 0 seconds, which
        // never exceeds the fresh duration
        Outcome(Session(Some(now), 0, 0), [0])
      else
        var elapsed := ElapsedSeconds(s.startTimeMillis.value, now);
        if elapsed > s.lastValidDurationSec then Outcome(Session(s.startTimeMillis, elapsed, 0), [elapsed])
        else Outcome(s.(consecutiveInvalidFrames := 0), [])
    else if s.consecutiveInvalidFrames + 1 >= InvalidThreshold then Outcome(Cleared, [0])
    else Outcome(s.(consecutiveInvalidFrames := s.consecutiveInvalidFrames + 1), [])
  }

  /** `Step` on a frame paired with its time. */
  function StepAt(s: Session, tf: TimedFrame): Transition
  {
    Step(s, tf.frame, tf.now)
  }

  /** The frames in order, with everything reported along the way. */
  function Run(s: Session, frames: seq<TimedFrame>): Transition
  {
    RunSteps(StepAt, s, frames)
  }

  /** What holds of the fields between frames: fewer than three invalid frames are
      pending, the duration is never negative, and it is 0 while no session runs. */
  predicate Inv(s: Session)
  {
    0 <= s.consecutiveInvalidFrames < InvalidThreshold
    && s.lastValidDurationSec >= 0
    && (s.startTimeMillis.None? ==> s.lastValidDurationSec == 0)
  }

  /** The last of `events`, or `last` when there are none. */
  function LastOr(last: int, events: seq<int>): int
  {
    if events == [] then last else events[|events| - 1]
  }

  /** Every reported value is either 0, which ends or begins a session, or strictly
      greater than the value reported before it (`last` for the first). */
  predicate IncreasingBetweenResets(last: int, events: seq<int>)
    decreases |events|
  {
    events == []
    || ((events[0] == 0 || events[0] > last) && IncreasingBetweenResets(events[0], events[1..]))
  }

  /** Every frame at least `prev` and at most one second after the frame before it. */
  predicate Paced(prev: int, frames: seq<TimedFrame>)
    decreases |frames|
  {
    frames == []
    || (prev <= frames[0].now <= prev + 1000 && Paced(frames[0].now, frames[1..]))
  }

  /** The time of the last frame, or `prev` when there are none. */
  function LastTime(prev: int, frames: seq<TimedFrame>): int
  {
    if frames == [] then prev else frames[|frames| - 1].now
  }

  // ---------------------------------------------------------------------------
  // One frame

  /** A fresh detector meets the invariant. */
  lemma ClearedIsValid()
    ensures Inv(Cleared)
  {
  }

  /** Under the invariant "three or more invalid frames" cannot hold, so a valid frame
      begins a session exactly when none is running. */
  lemma SessionStartTestRedundant(s: Session)
    requires Inv(s)
    ensures StartsSession(s) <==> s.startTimeMillis.None?
  {
  }

  /** Every frame keeps the invariant. */
  lemma StepKeepsInv(s: Session, f: Frame, now: int)
    requires Inv(s)
    ensures Inv(Step(s, f, now).after)
  {
  }

  /** A valid frame that begins a session starts it at `now` with duration 0 and
      reports 0, once; a valid frame in a running session keeps its start, never
      lowers the duration, and reports the new duration exactly when the elapsed
      whole seconds exceed the stored ones. Either way no invalid frame is pending. */
  lemma StepValidFrame(s: Session, f: Frame, now: int)
    requires IsValidPlank(f)
    ensures var t := Step(s, f, now);
      t.after.consecutiveInvalidFrames == 0
      && (StartsSession(s) ==> t == Outcome(Session(Some(now), 0, 0), [0]))
      && (!StartsSession(s) ==>
            t.after.startTimeMillis == s.startTimeMillis
            && t.after.lastValidDurationSec >= s.lastValidDurationSec
            && (ElapsedSeconds(s.startTimeMillis.value, now) > s.lastValidDurationSec
                <==> t.emitted == [t.after.lastValidDurationSec])
            && (ElapsedSeconds(s.startTimeMillis.value, now) > s.lastValidDurationSec
                ==> t.after.lastValidDurationSec == ElapsedSeconds(s.startTimeMillis.value, now))
            && (t.emitted == [] <==> t.after.lastValidDurationSec == s.lastValidDurationSec))
  {
  }

  /** A frame hands at most one value to the callback. */
  lemma StepReportsAtMostOne(s: Session, f: Frame, now: int)
    ensures |Step(s, f, now).emitted| <= 1
  {
  }

  /** An invalid frame counts one more invalid frame; the third in a row clears the
      session and reports 0, the first and second report nothing and keep the rest. */
  lemma StepInvalidFrame(s: Session, f: Frame, now: int)
    requires Inv(s)
    requires !IsValidPlank(f)
    ensures s.consecutiveInvalidFrames + 1 == InvalidThreshold ==> Step(s, f, now) == Outcome(Cleared, [0])
    ensures s.consecutiveInvalidFrames + 1 < InvalidThreshold ==>
      Step(s, f, now) == Outcome(s.(consecutiveInvalidFrames := s.consecutiveInvalidFrames + 1), [])
  {
  }

  /** One frame reports values that increase between resets, and afterwards the stored
      duration is the last value reported. */
  lemma StepReports(s: Session, f: Frame, now: int)
    requires Inv(s)
    ensures var t := Step(s, f, now);
      IncreasingBetweenResets(s.lastValidDurationSec, t.emitted)
      && t.after.lastValidDurationSec == LastOr(s.lastValidDurationSec, t.emitted)
  {
  }

  // ---------------------------------------------------------------------------
  // Reported values

  lemma {:induction false} IncreasingAppend(last: int, a: seq<int>, b: seq<int>)
    requires IncreasingBetweenResets(last, a)
    requires IncreasingBetweenResets(LastOr(last, a), b)
    ensures IncreasingBetweenResets(last, a + b)
    ensures LastOr(LastOr(last, a), b) == LastOr(last, a + b)
    decreases |a|
  {
    if a == [] {
      assert a + b == b;
    } else {
      assert (a + b)[0] == a[0];
      assert (a + b)[1..] == a[1..] + b;
      assert LastOr(a[0], a[1..]) == LastOr(last, a);
      IncreasingAppend(a[0], a[1..], b);
    }
  }

  // ---------------------------------------------------------------------------
  // Runs of frames

  /** Over any run the invariant holds at the end, the values reported increase
      between resets (so no second is reported twice within a session), and the
      stored duration is always the last value reported. */
  lemma {:induction false} RunReports(s: Session, frames: seq<TimedFrame>)
    requires Inv(s)
    ensures var r := Run(s, frames);
      Inv(r.after)
      && IncreasingBetweenResets(s.lastValidDurationSec, r.emitted)
      && r.after.lastValidDurationSec == LastOr(s.lastValidDurationSec, r.emitted)
    decreases |frames|
  {
    if frames != [] {
      var t := Step(s, frames[0].frame, frames[0].now);
      StepKeepsInv(s, frames[0].frame, frames[0].now);
      StepReports(s, frames[0].frame, frames[0].now);
      RunReports(t.after, frames[1..]);
      IncreasingAppend(s.lastValidDurationSec, t.emitted, Run(t.after, frames[1..]).emitted);
    }
  }

  /** Valid frames in a running session keep its start and never report 0: the
      reported durations are strictly increasing, all above the stored one, and the
      stored duration never decreases. */
  lemma {:induction false} ValidFramesKeepSession(s: Session, frames: seq<TimedFrame>)
    requires Inv(s) && s.startTimeMillis.Some?
    requires forall i :: 0 <= i < |frames| ==> IsValidPlank(frames[i].frame)
    ensures var r := Run(s, frames);
      r.after.startTimeMillis == s.startTimeMillis
      && r.after.lastValidDurationSec >= s.lastValidDurationSec
      && (forall i :: 0 <= i < |r.emitted| ==> s.lastValidDurationSec < r.emitted[i])
      && (forall i, j :: 0 <= i < j < |r.emitted| ==> r.emitted[i] < r.emitted[j])
      && (frames != [] ==> r.after.consecutiveInvalidFrames == 0)
    decreases |frames|
  {
    if frames != [] {
      var t := Step(s, frames[0].frame, frames[0].now);
      StepValidFrame(s, frames[0].frame, frames[0].now);
      ValidFramesKeepSession(t.after, frames[1..]);
      var r := Run(t.after, frames[1..]);
      if frames[1..] == [] {
        assert r.after == t.after;
      }
      assert Run(s, frames).emitted == t.emitted + r.emitted;
    }
  }

  /** Invalid frames that do not reach the threshold only count themselves. */
  lemma {:induction false} InvalidFramesBelowThreshold(s: Session, frames: seq<TimedFrame>)
    requires Inv(s)
    requires s.consecutiveInvalidFrames + |frames| < InvalidThreshold
    requires forall i :: 0 <= i < |frames| ==> !IsValidPlank(frames[i].frame)
    ensures Run(s, frames)
            == Outcome(s.(consecutiveInvalidFrames := s.consecutiveInvalidFrames + |frames|), [])
    decreases |frames|
  {
    if frames != [] {
      InvalidFramesBelowThreshold(s.(consecutiveInvalidFrames := s.consecutiveInvalidFrames + 1), frames[1..]);
    }
  }

  /** Debouncing: one or two invalid frames followed by a valid frame keep the
      session's start time, do not lower the duration and report no 0. */
  lemma InvalidFramesThenValidFrame(s: Session, invalid: seq<TimedFrame>, valid: TimedFrame)
    requires Inv(s) && s.startTimeMillis.Some? && s.consecutiveInvalidFrames == 0
    requires 1 <= |invalid| <= 2
    requires forall i :: 0 <= i < |invalid| ==> !IsValidPlank(invalid[i].frame)
    requires IsValidPlank(valid.frame)
    ensures var r := Run(s, invalid + [valid]);
      r.after.startTimeMillis == s.startTimeMillis
      && r.after.lastValidDurationSec >= s.lastValidDurationSec
      && r.after.consecutiveInvalidFrames == 0
      && 0 !in r.emitted
  {
    InvalidFramesBelowThreshold(s, invalid);
    RunStepsAppend(StepAt, s, invalid, [valid]);
    var mid := s.(consecutiveInvalidFrames := |invalid|);
    ValidFramesKeepSession(mid, [valid]);
  }

  /** Three invalid frames in a row after a valid one clear the session and report a
      single 0. */
  lemma ThresholdInvalidFramesClear(s: Session, frames: seq<TimedFrame>)
    requires Inv(s) && s.consecutiveInvalidFrames == 0
    requires |frames| == InvalidThreshold
    requires forall i :: 0 <= i < |frames| ==> !IsValidPlank(frames[i].frame)
    ensures Run(s, frames) == Outcome(Cleared, [0])
  {
    var two := frames[..2];
    assert frames == two + [frames[2]];
    InvalidFramesBelowThreshold(s, two);
    RunStepsAppend(StepAt, s, two, [frames[2]]);
  }

  /** Going from `prev` to a time at most one second later adds at most one second. */
  lemma ElapsedStep(start: int, prev: int, now: int)
    requires start <= prev <= now <= prev + 1000
    requires now - start < 1000 * TwoToThe31
    ensures ElapsedSeconds(start, prev) <= ElapsedSeconds(start, now) <= ElapsedSeconds(start, prev) + 1
  {
    assert ElapsedSeconds(start, prev) == (prev - start) / 1000;
    assert ElapsedSeconds(start, now) == (now - start) / 1000;
  }

  /** Valid frames of a running session, at most one second apart, on a clock that
      does not go back: every whole second is reported once, in order, up to the one
      elapsed at the last frame. */
  lemma {:induction false} PacedFramesReportEverySecond(start: int, prev: int, frames: seq<TimedFrame>)
    requires start <= prev
    requires Paced(prev, frames)
    requires LastTime(prev, frames) - start < 1000 * TwoToThe31
    requires forall i :: 0 <= i < |frames| ==> IsValidPlank(frames[i].frame)
    ensures ElapsedSeconds(start, prev) <= ElapsedSeconds(start, LastTime(prev, frames))
    ensures Run(Session(Some(start), ElapsedSeconds(start, prev), 0), frames)
            == Outcome(Session(Some(start), ElapsedSeconds(start, LastTime(prev, frames)), 0),
                          Range(ElapsedSeconds(start, prev) + 1, ElapsedSeconds(start, LastTime(prev, frames)) + 1))
    decreases |frames|
  {
    var e0 := ElapsedSeconds(start, prev);
    if frames == [] {
      assert Range(e0 + 1, e0 + 1) == [];
    } else {
      var now := frames[0].now;
      var tail := frames[1..];
      var e1 := ElapsedSeconds(start, now);
      var eN := ElapsedSeconds(start, LastTime(prev, frames));
      var rest := Run(Session(Some(start), e1, 0), tail);
      assert (e1 == e0 || e1 == e0 + 1)
             && Run(Session(Some(start), e0, 0), frames)
                == Outcome(rest.after, (if e1 == e0 then [] else [e1]) + rest.emitted) by {
        PacedTail(start, prev, frames);
        PacedRunCons(start, prev, frames);
      }
      assert e1 <= eN && rest == Outcome(Session(Some(start), eN, 0), Range(e1 + 1, eN + 1)) by {
        PacedTail(start, prev, frames);
        PacedFramesReportEverySecond(start, now, tail);
      }
      ReportNextSecond(e0, e1, eN);
    }
  }

  /** What a paced run promises of its first frame and of the rest of it. */
  lemma PacedTail(start: int, prev: int, frames: seq<TimedFrame>)
    requires frames != []
    requires start <= prev
    requires Paced(prev, frames)
    requires LastTime(prev, frames) - start < 1000 * TwoToThe31
    requires forall i :: 0 <= i < |frames| ==> IsValidPlank(frames[i].frame)
    ensures start <= prev <= frames[0].now <= prev + 1000
    ensures frames[0].now - start < 1000 * TwoToThe31
    ensures IsValidPlank(frames[0].frame)
    ensures Paced(frames[0].now, frames[1..])
    ensures LastTime(frames[0].now, frames[1..]) == LastTime(prev, frames)
    ensures forall i :: 0 <= i < |frames[1..]| ==> IsValidPlank(frames[1..][i].frame)
  {
    PacedLastTime(prev, frames);
  }

  /** A paced run is its first frame's step, which reports the next second or
      nothing, followed by the paced rest. */
  lemma PacedRunCons(start: int, prev: int, frames: seq<TimedFrame>)
    requires frames != []
    requires start <= prev <= frames[0].now <= prev + 1000
    requires frames[0].now - start < 1000 * TwoToThe31
    requires IsValidPlank(frames[0].frame)
    ensures var e0 := ElapsedSeconds(start, prev); var e1 := ElapsedSeconds(start, frames[0].now);
      var rest := Run(Session(Some(start), e1, 0), frames[1..]);
      (e1 == e0 || e1 == e0 + 1)
      && Run(Session(Some(start), e0, 0), frames)
         == Outcome(rest.after, (if e1 == e0 then [] else [e1]) + rest.emitted)
  {
    PacedStep(start, prev, frames[0]);
    RunStepsCons(StepAt, Session(Some(start), ElapsedSeconds(start, prev), 0), frames);
  }

  /** Reporting the next second, or nothing, in front of the later seconds. */
  lemma ReportNextSecond(e0: int, e1: int, eN: int)
    requires e1 == e0 || e1 == e0 + 1
    requires e1 <= eN
    ensures (if e1 == e0 then [] else [e1]) + Range(e1 + 1, eN + 1) == Range(e0 + 1, eN + 1)
  {
    if e1 == e0 {
      assert [] + Range(e1 + 1, eN + 1) == Range(e1 + 1, eN + 1);
    }
  }

  /** One valid frame of a running session with nothing pending, at most a second
      after the previous one: the elapsed seconds advance by zero or one, and the new
      second, if any, is reported. */
  lemma PacedStep(start: int, prev: int, f: TimedFrame)
    requires start <= prev <= f.now <= prev + 1000
    requires f.now - start < 1000 * TwoToThe31
    requires IsValidPlank(f.frame)
    ensures var e0 := ElapsedSeconds(start, prev); var e1 := ElapsedSeconds(start, f.now);
      (e1 == e0 || e1 == e0 + 1)
      && Step(Session(Some(start), e0, 0), f.frame, f.now)
         == Outcome(Session(Some(start), e1, 0), if e1 == e0 then [] else [e1])
  {
    ElapsedStep(start, prev, f.now);
  }

  /** The last time of a paced run is not before any of its frames. */
  lemma {:induction false} PacedLastTime(prev: int, frames: seq<TimedFrame>)
    requires Paced(prev, frames)
    ensures prev <= LastTime(prev, frames)
    ensures forall i :: 0 <= i < |frames| ==> frames[i].now <= LastTime(prev, frames)
    decreases |frames|
  {
    if frames != [] {
      PacedLastTime(frames[0].now, frames[1..]);
      assert LastTime(frames[0].now, frames[1..]) == LastTime(prev, frames);
    }
  }

  /** A fresh detector given valid frames, each at most a second after the one before,
      reports 0 at the first, then 1, 2, ..., T where T is the whole seconds from the
      first frame to the last. */
  lemma PlankSession(frames: seq<TimedFrame>)
    requires frames != []
    requires forall i :: 0 <= i < |frames| ==> IsValidPlank(frames[i].frame)
    requires Paced(frames[0].now, frames[1..])
    requires frames[|frames| - 1].now - frames[0].now < 1000 * TwoToThe31
    ensures var total := ElapsedSeconds(frames[0].now, frames[|frames| - 1].now);
      total >= 0 && Run(Cleared, frames).emitted == [0] + Range(1, total + 1)
  {
    var t0 := frames[0].now;
    assert ElapsedSeconds(t0, t0) == 0;
    assert StepAt(Cleared, frames[0]) == Outcome(Session(Some(t0), 0, 0), [0]) by {
      assert IsValidPlank(frames[0].frame);
    }
    RunStepsCons(StepAt, Cleared, frames);
    assert LastTime(t0, frames[1..]) == frames[|frames| - 1].now;
    assert forall i :: 0 <= i < |frames[1..]| ==> IsValidPlank(frames[1..][i].frame) by {
      forall i | 0 <= i < |frames[1..]| ensures IsValidPlank(frames[1..][i].frame) {
        assert frames[1..][i] == frames[i + 1];
      }
    }
    PacedFramesReportEverySecond(t0, t0, frames[1..]);
  }

  /** What one frame does to the object invariant of `PlankDetector`: given the
      fields and the history before it, the fields and history after it qualify. */
  lemma StepKeepsHistory(s: Session, f: Frame, now: int, reported: seq<int>)
    requires Inv(s)
    requires s.lastValidDurationSec == LastOr(0, reported)
    requires IncreasingBetweenResets(0, reported)
    ensures var t := Step(s, f, now);
      Inv(t.after)
      && t.after.lastValidDurationSec == LastOr(0, reported + t.emitted)
      && IncreasingBetweenResets(0, reported + t.emitted)
  {
    var t := Step(s, f, now);
    StepKeepsInv(s, f, now);
    StepReports(s, f, now);
    IncreasingAppend(0, reported, t.emitted);
  }

  // ---------------------------------------------------------------------------
  // The detector object

  class PlankDetector {
    var startTimeMillis: Option<int>
    var lastValidDurationSec: int
    var consecutiveInvalidFrames: int
    /** Every duration handed to the callback so far, in order. */
    ghost var reported: seq<int>

    function Snapshot(): Session
      reads this
    {
      Session(startTimeMillis, lastValidDurationSec, consecutiveInvalidFrames)
    }

    /** The invariant of the fields, and the stored duration is the last one reported;
        reported durations increase between resets. */
    ghost predicate Valid()
      reads this
    {
      Inv(Snapshot())
      && lastValidDurationSec == LastOr(0, reported)
      && IncreasingBetweenResets(0, reported)
    }

    constructor ()
      ensures Valid()
      ensures Snapshot() == Cleared && reported == []
    {
      startTimeMillis := None;
      lastValidDurationSec := 0;
      consecutiveInvalidFrames := 0;
      reported := [];
    }

    /** Evaluates one frame seen at time `now`; returns the durations handed to the
        callback during it. */
    method EvaluatePoseFrame(shoulderHipAnkleAngle: real, shoulderAnkleAngleWithHorizontal: real,
                             elbowWristAngleWithHorizontal: real, shoulderElbowWristAngle: real,
                             now: int)
      returns (emitted: seq<int>)
      requires Valid()
      modifies this
      ensures Valid()
      ensures Outcome(Snapshot(), emitted)
              == Step(old(Snapshot()), Frame(shoulderHipAnkleAngle, shoulderAnkleAngleWithHorizontal,
                                             elbowWristAngleWithHorizontal, shoulderElbowWristAngle), now)
      ensures reported == old(reported) + emitted
    {
      ghost var before := Snapshot();
      ghost var f := Frame(shoulderHipAnkleAngle, shoulderAnkleAngleWithHorizontal,
                           elbowWristAngleWithHorizontal, shoulderElbowWristAngle);
      StepKeepsHistory(before, f, now, reported);

      var isAlignedSHA := IsAlignedToAxis(shoulderHipAnkleAngle, ShoulderHipAnkleTolerance);
      var isHorizontalSA := IsAlignedToAxis(shoulderAnkleAngleWithHorizontal, ShoulderAnkleHorizontalTolerance);
      var isHorizontalEW := IsAlignedToAxis(elbowWristAngleWithHorizontal, ElbowWristHorizontalTolerance);
      var isAngleSEW := IsApproximately(shoulderElbowWristAngle, 90.0, ShoulderElbowWristAngleTolerance);
      var isValidPlank := isAlignedSHA && isHorizontalSA && isHorizontalEW && isAngleSEW;

      emitted := [];
      if isValidPlank {
        assert IsValidPlank(f);
        if consecutiveInvalidFrames >= InvalidThreshold || startTimeMillis.None? {
          startTimeMillis := Some(now);
          lastValidDurationSec := 0;
          emitted := emitted + [0];
          reported := reported + [0];
        }
        consecutiveInvalidFrames := 0;
        var elapsedMillis := now - startTimeMillis.value;
        var elapsedSeconds := ToInt32(MillisToSeconds(elapsedMillis));
        assert elapsedSeconds == ElapsedSeconds(startTimeMillis.value, now);
        if elapsedSeconds > lastValidDurationSec {
          lastValidDurationSec := elapsedSeconds;
          emitted := emitted + [elapsedSeconds];
          reported := reported + [elapsedSeconds];
        }
        assert Outcome(Snapshot(), emitted) == Step(before, f, now);
      } else {
        assert !IsValidPlank(f);
        consecutiveInvalidFrames := consecutiveInvalidFrames + 1;
        if consecutiveInvalidFrames >= InvalidThreshold {
          emitted := Reset();
        }
        assert Outcome(Snapshot(), emitted) == Step(before, f, now);
      }
      assert reported == old(reported) + emitted;
    }

    /** Ends the session: no start time, duration 0, no pending invalid frames, and 0
        handed to the callback. Called from `EvaluatePoseFrame` while the counter is
        out of range, so it does not require `Valid()`; it restores it whenever the
        history so far increases between resets. */
    method Reset() returns (emitted: seq<int>)
      modifies this
      ensures Snapshot() == Cleared && emitted == [0]
      ensures reported == old(reported) + [0]
      ensures IncreasingBetweenResets(0, old(reported)) ==> Valid()
    {
      if IncreasingBetweenResets(0, reported) {
        IncreasingAppend(0, reported, [0]);
      }
      startTimeMillis := None;
      lastValidDurationSec := 0;
      consecutiveInvalidFrames := 0;
      emitted := [0];
      reported := reported + [0];
    }

    /** The duration last handed to the callback (0 before any), never negative. */
    function GetCurrentDurationSeconds(): (d: int)
      requires Valid()
      reads this
      ensures d == LastOr(0, reported)
      ensures d >= 0
      ensures startTimeMillis.None? ==> d == 0
    {
      lastValidDurationSec
    }
  }
}
