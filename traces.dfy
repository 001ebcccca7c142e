/**
 * What both detectors share about runs of frames: feeding inputs one at a time to
 * a per-frame step, collecting the values it hands to its callback, and runs of
 * consecutive integers, the shape of the counts and durations reported.
 */
module Traces {

  /** The state after one or more frames, and the values reported meanwhile. */
  datatype Outcome<S> = Outcome(after: S, emitted: seq<int>)

  /** The inputs in order, each handled by `step`, with everything reported along the way. */
  function RunSteps<S, F>(step: (S, F) -> Outcome<S>, s: S, inputs: seq<F>): Outcome<S>
    decreases |inputs|
  {
    if inputs == [] then Outcome(s, [])
    else
      var t := step(s, inputs[0]);
      var rest := RunSteps(step, t.after, inputs[1..]);
      Outcome(rest.after, t.emitted + rest.emitted)
  }

  /** Running `a` then `b` is running `a + b`. */
  lemma {:induction false} RunStepsAppend<S, F>(step: (S, F) -> Outcome<S>, s: S, a: seq<F>, b: seq<F>)
    ensures var ra := RunSteps(step, s, a); var rb := RunSteps(step, ra.after, b);
      RunSteps(step, s, a + b) == Outcome(rb.after, ra.emitted + rb.emitted)
    decreases |a|
  {
    if a == [] {
      assert a + b == b;
    } else {
      assert (a + b)[0] == a[0];
      assert (a + b)[1..] == a[1..] + b;
      RunStepsAppend(step, step(s, a[0]).after, a[1..], b);
    }
  }

  /** A run of one or more inputs is the first step followed by the rest of the run. */
  lemma RunStepsCons<S, F>(step: (S, F) -> Outcome<S>, s: S, inputs: seq<F>)
    requires inputs != []
    ensures var t := step(s, inputs[0]); var rest := RunSteps(step, t.after, inputs[1..]);
      RunSteps(step, s, inputs) == Outcome(rest.after, t.emitted + rest.emitted)
  {
  }

  /** A run of one input is its step. */
  lemma RunStepsSingle<S, F>(step: (S, F) -> Outcome<S>, s: S, x: F)
    ensures RunSteps(step, s, [x]) == step(s, x)
  {
    assert [x][1..] == [];
    assert step(s, x).emitted + [] == step(s, x).emitted;
  }

  /** The integers lo, lo + 1, ..., hi - 1 in increasing order. */
  function Range(lo: int, hi: int): (r: seq<int>)
    requires lo <= hi
    ensures |r| == hi - lo
    decreases hi - lo
  {
    if lo == hi then [] else [lo] + Range(lo + 1, hi)
  }

  /** The k-th element of Range(lo, hi) is lo + k. */
  lemma {:induction false} RangeAt(lo: int, hi: int, k: int)
    requires lo <= hi && 0 <= k < hi - lo
    ensures Range(lo, hi)[k] == lo + k
    decreases hi - lo
  {
    if k > 0 {
      RangeAt(lo + 1, hi, k - 1);
    }
  }

  /** Range(lo, hi) followed by hi is Range(lo, hi + 1). */
  lemma {:induction false} RangeSnoc(lo: int, hi: int)
    requires lo <= hi
    ensures Range(lo, hi) + [hi] == Range(lo, hi + 1)
    decreases hi - lo
  {
    if lo < hi {
      RangeSnoc(lo + 1, hi);
      assert Range(lo, hi) + [hi] == [lo] + (Range(lo + 1, hi) + [hi]);
    }
  }
}
