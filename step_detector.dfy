/** StepDetector: a step fires when the acceleration magnitude, in units of g,
    exceeds a threshold and the last above-threshold sample is more than the
    release time in the past (src/com/zacharyliu/stepnavigation/StepDetector.java). */
module StepDetector {
  import opened JavaMath

  const ACCELERATION_THRESHOLD: real := 1.3
  /** Milliseconds. */
  const RELEASE_THRESHOLD: int := 100
  /** The divisor the source uses for g. */
  const GRAVITY: real := 9.8

  /** Sum of the squares of `s`, from first to last. */
  function SumOfSquares(s: seq<real>): real {
    if s == [] then 0.0 else SumOfSquares(s[..|s| - 1]) + s[|s| - 1] * s[|s| - 1]
  }

  /** The squared norm of the first three readings: what the loop adds up
      before taking the square root. */
  function SquaredNorm(readings: seq<real>): real
    requires |readings| >= 3
  {
    SumOfSquares(readings[..3])
  }

  /** Whether the sample is above threshold, decided on squares: `sqrt(S) / 9.8 > 1.3`
      is `S > (1.3 * 9.8)^2` (see `AboveThresholdMeansMagnitude`). */
  predicate AboveThreshold(readings: seq<real>)
    requires |readings| >= 3
  {
    SquaredNorm(readings) > (ACCELERATION_THRESHOLD * GRAVITY) * (ACCELERATION_THRESHOLD * GRAVITY)
  }

  /** Testing squares is testing the magnitude itself: for the true magnitude
      `sqrt(r0^2 + r1^2 + r2^2) / 9.8`, it exceeds 1.3 exactly when the sample
      is above threshold. */
  lemma AboveThresholdMeansMagnitude(readings: seq<real>, magnitude: real)
    requires |readings| >= 3
    requires magnitude >= 0.0
    requires (magnitude * GRAVITY) * (magnitude * GRAVITY) == SquaredNorm(readings)
    ensures magnitude > ACCELERATION_THRESHOLD <==> AboveThreshold(readings)
  {
    var root := magnitude * GRAVITY;
    RootExceeds(root, SquaredNorm(readings), ACCELERATION_THRESHOLD * GRAVITY);
    if magnitude > ACCELERATION_THRESHOLD {
      MulStrict(ACCELERATION_THRESHOLD, magnitude, GRAVITY);
    } else {
      MulMonotone(magnitude, ACCELERATION_THRESHOLD, GRAVITY);
    }
  }

  /** Only the first three readings count, whatever else the event carries. */
  lemma SquaredNormIgnoresExtraReadings(readings: seq<real>, extra: seq<real>)
    requires |readings| >= 3
    ensures SquaredNorm(readings + extra) == SquaredNorm(readings)
  {
    assert (readings + extra)[..3] == readings[..3];
  }

  /** The accumulation loop of `onSensorChanged`. */
  method SquaredMagnitude(readings: seq<real>) returns (acceleration: real)
    requires |readings| >= 3
    ensures acceleration == SquaredNorm(readings)
  {
    acceleration := 0.0;
    for i := 0 to 3
      invariant acceleration == SumOfSquares(readings[..i])
    {
      assert readings[..i + 1][..i] == readings[..i];
      acceleration := acceleration + readings[i] * readings[i];
    }
  }

  /** One sample as the debouncer sees it: whether it was above threshold and
      the clock reading taken for it. */
  datatype Sample = Sample(above: bool, time: int)

  /** Whether the sample fires a step, given the previous `lastActive`. */
  predicate Fires(lastActive: int, s: Sample) {
    s.above && s.time - lastActive > RELEASE_THRESHOLD
  }

  /** `lastActive` after the sample: every above-threshold sample moves it. */
  function NextLastActive(lastActive: int, s: Sample): int {
    if s.above then s.time else lastActive
  }

  /** The steps fired by a sequence of samples, one flag per sample. */
  function StepsFrom(lastActive: int, samples: seq<Sample>): (fired: seq<bool>)
    ensures |fired| == |samples|
    decreases |samples|
  {
    if samples == [] then []
    else [Fires(lastActive, samples[0])] + StepsFrom(NextLastActive(lastActive, samples[0]), samples[1..])
  }

  class Detector {
    /** Clock reading of the last above-threshold sample (ms); starts at 0. */
    var lastActive: int

    constructor ()
      ensures lastActive == 0
    {
      lastActive := 0;
    }

    /** The listener's `onSensorChanged`. `time` is the clock reading the source
        takes only for an above-threshold sample; `step` says whether
        `onStep` was called. */
    method OnSensorChanged(readings: seq<real>, time: int) returns (step: bool)
      requires |readings| >= 3
      modifies this
      ensures var s := Sample(AboveThreshold(readings), time);
        step == Fires(old(lastActive), s) && lastActive == NextLastActive(old(lastActive), s)
      ensures !AboveThreshold(readings) ==> !step && lastActive == old(lastActive)
      ensures AboveThreshold(readings) ==>
        lastActive == time && (step <==> time - old(lastActive) > RELEASE_THRESHOLD)
    {
      var acceleration := SquaredMagnitude(readings);
      step := false;
      if acceleration > (ACCELERATION_THRESHOLD * GRAVITY) * (ACCELERATION_THRESHOLD * GRAVITY) {
        if time - lastActive > RELEASE_THRESHOLD {
          step := true;
        }
        lastActive := time;
      }
    }
  }

  /** Samples that are all above threshold, each at most the release time
      after the one before. */
  predicate IsBurst(samples: seq<Sample>) {
    && (forall i :: 0 <= i < |samples| ==> samples[i].above)
    && (forall i :: 0 < i < |samples| ==> samples[i].time - samples[i - 1].time <= RELEASE_THRESHOLD)
  }

  /** A burst fires at most one step, and only at its first sample. */
  lemma {:induction false} BurstFiresOnlyFirst(lastActive: int, samples: seq<Sample>)
    requires IsBurst(samples)
    ensures forall i :: 0 < i < |samples| ==> !StepsFrom(lastActive, samples)[i]
    ensures samples != [] ==>
      (StepsFrom(lastActive, samples)[0] <==> samples[0].time - lastActive > RELEASE_THRESHOLD)
    decreases |samples|
  {
    if |samples| > 1 {
      var next := NextLastActive(lastActive, samples[0]);
      var rest := samples[1..];
      assert IsBurst(rest) by {
        forall i | 0 < i < |rest| ensures rest[i].time - rest[i - 1].time <= RELEASE_THRESHOLD {
          assert rest[i] == samples[i + 1] && rest[i - 1] == samples[i];
        }
      }
      BurstFiresOnlyFirst(next, rest);
      assert next == samples[0].time;
      forall i | 0 < i < |samples| ensures !StepsFrom(lastActive, samples)[i] {
        assert StepsFrom(lastActive, samples)[i] == StepsFrom(next, rest)[i - 1];
      }
    }
  }

  predicate TimesNondecreasing(samples: seq<Sample>) {
    forall i :: 0 < i < |samples| ==> samples[i - 1].time <= samples[i].time
  }

  /** With a clock that never runs backwards, a fired step is more than the
      release time after any earlier `lastActive`. */
  lemma {:induction false} FiredAfterRelease(lastActive: int, samples: seq<Sample>, j: int)
    requires TimesNondecreasing(samples)
    requires samples != [] ==> lastActive <= samples[0].time
    requires 0 <= j < |samples| && StepsFrom(lastActive, samples)[j]
    ensures samples[j].time - lastActive > RELEASE_THRESHOLD
    decreases |samples|
  {
    if j > 0 {
      var next := NextLastActive(lastActive, samples[0]);
      var rest := samples[1..];
      assert StepsFrom(lastActive, samples)[j] == StepsFrom(next, rest)[j - 1];
      assert TimesNondecreasing(rest) by {
        forall i | 0 < i < |rest| ensures rest[i - 1].time <= rest[i].time {
          assert rest[i] == samples[i + 1] && rest[i - 1] == samples[i];
        }
      }
      FiredAfterRelease(next, rest, j - 1);
    }
  }

  /** With a clock that never runs backwards, any two steps are more than the
      release time apart. */
  lemma {:induction false} StepsSpacedByRelease(lastActive: int, samples: seq<Sample>, i: int, j: int)
    requires TimesNondecreasing(samples)
    requires samples != [] ==> lastActive <= samples[0].time
    requires 0 <= i < j < |samples|
    requires StepsFrom(lastActive, samples)[i] && StepsFrom(lastActive, samples)[j]
    ensures samples[j].time - samples[i].time > RELEASE_THRESHOLD
    decreases |samples|
  {
    var next := NextLastActive(lastActive, samples[0]);
    var rest := samples[1..];
    assert TimesNondecreasing(rest) by {
      forall k | 0 < k < |rest| ensures rest[k - 1].time <= rest[k].time {
        assert rest[k] == samples[k + 1] && rest[k - 1] == samples[k];
      }
    }
    assert StepsFrom(lastActive, samples)[j] == StepsFrom(next, rest)[j - 1];
    if i == 0 {
      assert next == samples[0].time;
      FiredAfterRelease(next, rest, j - 1);
    } else {
      assert StepsFrom(lastActive, samples)[i] == StepsFrom(next, rest)[i - 1];
      StepsSpacedByRelease(next, rest, i - 1, j - 1);
    }
  }

  /** Two crossings 50 ms apart give one step; 150 ms apart, two. Starting
      from a fresh detector (`lastActive == 0`), the first crossing fires only
      if the clock is past 100 ms. */
  lemma TwoCrossings(t: int)
    requires t > RELEASE_THRESHOLD
    ensures StepsFrom(0, [Sample(true, t), Sample(true, t + 50)]) == [true, false]
    ensures StepsFrom(0, [Sample(true, t), Sample(true, t + 150)]) == [true, true]
    ensures StepsFrom(0, [Sample(true, 0), Sample(true, 150)]) == [false, true]
  {
    assert [Sample(true, t), Sample(true, t + 50)][1..] == [Sample(true, t + 50)];
    assert [Sample(true, t), Sample(true, t + 150)][1..] == [Sample(true, t + 150)];
    assert [Sample(true, 0), Sample(true, 150)][1..] == [Sample(true, 150)];
  }
}
