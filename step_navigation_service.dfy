/** StepNavigationService: the calibration state machine and dead reckoning.
    After the first GPS fix, every step taken while the last bearing is
    non-zero records the difference between the GPS bearing and the compass
    heading in a bounded history (also after calibration: nothing resets
    `gpsReady` or `mBearing`). Once the last ten differences agree closely
    enough their mean is frozen as the correction factor and the GPS is
    switched off; from then on every step taken with a known position moves it
    by one step length along the corrected heading
    (src/com/zacharyliu/stepnavigation/StepNavigationService.java). */
module StepNavigationService {
  import opened JavaMath
  import Sums

  const STEP_LENGTH_METERS: real := 0.8
  const EARTH_RADIUS_KILOMETERS: real := 6371.0
  const HISTORY_COUNT: int := 10
  const CALIBRATION_THRESHOLD: real := 10.0

  /** The identity of a registered `StepNavigationListener`. */
  type ListenerId = nat

  /** A `double[] {latitude, longitude}` pair, in degrees. */
  datatype Location = Location(latitude: real, longitude: real)

  /** One call `listener.onLocationUpdate(latitude, longitude)`. */
  datatype Delivery = Delivery(listener: ListenerId, latitude: real, longitude: real)

  /** The destination-point formula of `calculateNewLocation`, left
      uninterpreted: from a position and a heading in degrees to the position
      one step length further on. The formula moves `STEP_LENGTH_METERS / 1000`
      kilometres on a sphere of radius `EARTH_RADIUS_KILOMETERS`. */
  type DeadReckoning = (Location, real) -> Location

  // ---------------------------------------------------------------------------
  // The calibration history

  /** The newest `n` entries of `s`, oldest first. */
  function Recent(s: seq<real>, n: nat): (r: seq<real>)
    ensures |r| == if |s| <= n then |s| else n
    ensures forall i :: 0 <= i < |r| ==> r[i] == s[|s| - |r| + i]
  {
    if |s| <= n then s else s[|s| - n..]
  }

  /** Pushing onto a history that is not yet full keeps everything; pushing
      onto a full one drops exactly the oldest entry. Either way the new entry
      is last and the others keep their order. */
  lemma PushEvictsOldest(h: seq<real>, d: real)
    requires |h| <= HISTORY_COUNT
    ensures |h| < HISTORY_COUNT ==> Recent(h + [d], HISTORY_COUNT) == h + [d]
    ensures |h| == HISTORY_COUNT ==> Recent(h + [d], HISTORY_COUNT) == h[1..] + [d]
  {
    if |h| == HISTORY_COUNT {
      assert (h + [d])[1..] == h[1..] + [d];
    }
  }

  /** Sum of the squared deviations of `s` from `m`, first to last. */
  function SquaredDeviations(s: seq<real>, m: real): real {
    if s == [] then 0.0
    else SquaredDeviations(s[..|s| - 1], m) + (s[|s| - 1] - m) * (s[|s| - 1] - m)
  }

  /** The sample variance `calibrate` computes over a full history. */
  function Variance(h: seq<real>): (v: real)
    requires |h| == HISTORY_COUNT
    ensures v >= 0.0
  {
    SquaredDeviationsNonNegative(h, Sums.Mean(h));
    SquaredDeviations(h, Sums.Mean(h)) / (HISTORY_COUNT - 1) as real
  }

  /** Whether `calibrate` succeeds on history `h`: it is full and its standard
      deviation is at most the threshold (compared as variance against the
      squared threshold; see `StandardDeviationTest`). */
  predicate CalibrationSucceeds(h: seq<real>) {
    |h| == HISTORY_COUNT && Variance(h) <= CALIBRATION_THRESHOLD * CALIBRATION_THRESHOLD
  }

  /** Comparing the variance with 10^2 is comparing the standard deviation
      `Math.sqrt(var)` with 10. */
  lemma StandardDeviationTest(h: seq<real>, std: real)
    requires |h| == HISTORY_COUNT
    requires std >= 0.0 && std * std == Variance(h)
    ensures CalibrationSucceeds(h) <==> std <= CALIBRATION_THRESHOLD
  {
    RootExceeds(std, Variance(h), CALIBRATION_THRESHOLD);
  }

  /** The two loops of `calibrate`: the mean, then the sample variance. */
  method MeanAndVariance(history: seq<real>) returns (avg: real, variance: real)
    requires |history| == HISTORY_COUNT
    ensures avg == Sums.Mean(history)
    ensures variance == Variance(history)
  {
    var sum := 0.0;
    for i := 0 to |history|
      invariant sum == Sums.Sum(history[..i])
    {
      assert history[..i + 1][..i] == history[..i];
      sum := sum + history[i];
    }
    assert history[..|history|] == history;
    avg := sum / HISTORY_COUNT as real;
    variance := 0.0;
    for i := 0 to |history|
      invariant variance == SquaredDeviations(history[..i], avg)
    {
      assert history[..i + 1][..i] == history[..i];
      variance := variance + (history[i] - avg) * (history[i] - avg);
    }
    variance := variance / (HISTORY_COUNT - 1) as real;
  }

  lemma SquareNonNegative(z: real)
    ensures z * z >= 0.0
  {
    if z < 0.0 {
      MulStrict(z, 0.0, -z);
    }
  }

  lemma {:induction false} SquaredDeviationsNonNegative(s: seq<real>, m: real)
    ensures SquaredDeviations(s, m) >= 0.0
  {
    if s != [] {
      SquaredDeviationsNonNegative(s[..|s| - 1], m);
      SquareNonNegative(s[|s| - 1] - m);
    }
  }

  /** Every term of the sum is at most the whole. */
  lemma {:induction false} SquaredDeviationsAtLeastOne(s: seq<real>, m: real, i: int)
    requires 0 <= i < |s|
    ensures SquaredDeviations(s, m) >= (s[i] - m) * (s[i] - m)
  {
    var init := s[..|s| - 1];
    assert SquaredDeviations(s, m) == SquaredDeviations(init, m) + (s[|s| - 1] - m) * (s[|s| - 1] - m);
    if i == |s| - 1 {
      SquaredDeviationsNonNegative(init, m);
    } else {
      SquaredDeviationsAtLeastOne(init, m, i);
      SquareNonNegative(s[|s| - 1] - m);
    }
  }

  /** Any two terms together are at most the whole. */
  lemma {:induction false} SquaredDeviationsAtLeastTwo(s: seq<real>, m: real, i: int, j: int)
    requires 0 <= i < j < |s|
    ensures SquaredDeviations(s, m) >= (s[i] - m) * (s[i] - m) + (s[j] - m) * (s[j] - m)
  {
    var init := s[..|s| - 1];
    if j == |s| - 1 {
      SquaredDeviationsAtLeastOne(init, m, i);
    } else {
      SquaredDeviationsAtLeastTwo(init, m, i, j);
      SquareNonNegative(s[|s| - 1] - m);
    }
  }

  /** If every term is at most `b`, the sum is at most `|s| * b`. */
  lemma {:induction false} SquaredDeviationsAtMost(s: seq<real>, m: real, b: real)
    requires forall i :: 0 <= i < |s| ==> (s[i] - m) * (s[i] - m) <= b
    ensures SquaredDeviations(s, m) <= |s| as real * b
  {
    if s != [] {
      var init := s[..|s| - 1];
      assert forall i :: 0 <= i < |init| ==> init[i] == s[i];
      SquaredDeviationsAtMost(init, m, b);
      assert |s| as real * b == |init| as real * b + b;
    }
  }

  /** Two points `x` and `y` are together at least half their squared distance
      away from any `m`. */
  lemma TwoPointSpread(x: real, y: real, m: real)
    ensures (x - m) * (x - m) + (y - m) * (y - m) >= (y - x) * (y - x) / 2.0
  {
    var u, v := x - m, y - m;
    assert 2.0 * (u * u + v * v) - (v - u) * (v - u) == (u + v) * (u + v);
    SquareNonNegative(u + v);
    assert y - x == v - u;
  }

  /** Two recorded differences more than 43 degrees apart make calibration
      fail, whatever the other eight are: the standard deviation is then above 10. */
  lemma WideSpreadFails(h: seq<real>, i: int, j: int)
    requires |h| == HISTORY_COUNT
    requires 0 <= i < j < |h|
    requires h[j] - h[i] > 43.0 || h[i] - h[j] > 43.0
    ensures !CalibrationSucceeds(h)
  {
    var m := Sums.Mean(h);
    SquaredDeviationsAtLeastTwo(h, m, i, j);
    TwoPointSpread(h[i], h[j], m);
    var gap := if h[j] >= h[i] then h[j] - h[i] else h[i] - h[j];
    assert (h[j] - h[i]) * (h[j] - h[i]) == gap * gap;
    BelowSquare(43.0, gap, gap * gap);
    var total := SquaredDeviations(h, m);
    assert total > 1849.0 / 2.0;
    DivStrict(900.0, total, 9.0);
    assert Variance(h) == total / 9.0;
  }

  /** Ten differences all within a 9-degree band always calibrate, and the
      frozen correction factor lies in that band. */
  lemma NarrowBandCalibrates(h: seq<real>, lo: real)
    requires |h| == HISTORY_COUNT
    requires Sums.AllWithin(h, lo, lo + 9.0)
    ensures CalibrationSucceeds(h)
    ensures lo <= Sums.Mean(h) <= lo + 9.0
  {
    var m := Sums.Mean(h);
    Sums.MeanWithin(h, lo, lo + 9.0);
    forall i | 0 <= i < |h| ensures (h[i] - m) * (h[i] - m) <= 81.0 {
      var gap := if h[i] >= m then h[i] - m else m - h[i];
      assert (h[i] - m) * (h[i] - m) == gap * gap;
      BelowSquare(gap, 9.0, 81.0);
    }
    SquaredDeviationsAtMost(h, m, 81.0);
  }

  /** Ten identical differences calibrate, with that difference as the
      correction factor and zero variance. */
  lemma UniformHistoryCalibrates(h: seq<real>, c: real)
    requires |h| == HISTORY_COUNT
    requires forall i :: 0 <= i < |h| ==> h[i] == c
    ensures CalibrationSucceeds(h) && Sums.Mean(h) == c && Variance(h) == 0.0
  {
    Sums.SumConstant(h, c);
    assert Sums.Mean(h) == c;
    SquaredDeviationsAtMost(h, c, 0.0);
    SquaredDeviationsNonNegative(h, c);
  }

  /** A history alternating between -90 and +90 never calibrates. */
  lemma AlternatingHistoryFails(h: seq<real>)
    requires |h| == HISTORY_COUNT
    requires forall i :: 0 <= i < |h| ==> h[i] == if i % 2 == 0 then -90.0 else 90.0
    ensures !CalibrationSucceeds(h)
  {
    WideSpreadFails(h, 0, 1);
  }

  // ---------------------------------------------------------------------------
  // The listener registry

  /** `List.remove(Object)`: drop the first occurrence of `x`, if any. */
  function RemoveFirst(s: seq<ListenerId>, x: ListenerId): (r: seq<ListenerId>)
    ensures |r| == if x in s then |s| - 1 else |s|
    ensures forall y :: y in r ==> y in s
  {
    if s == [] then []
    else if s[0] == x then s[1..]
    else
      assert x in s <==> x in s[1..];
      [s[0]] + RemoveFirst(s[1..], x)
  }

  /** Removing the first occurrence at index `i` splices it out and leaves the
      rest in order. */
  lemma {:induction false} RemoveFirstSplices(s: seq<ListenerId>, x: ListenerId, i: int)
    requires 0 <= i < |s| && s[i] == x && x !in s[..i]
    ensures RemoveFirst(s, x) == s[..i] + s[i + 1..]
  {
    if i > 0 {
      assert s[1..][..i - 1] == s[1..i];
      assert x !in s[1..][..i - 1];
      RemoveFirstSplices(s[1..], x, i - 1);
      assert [s[0]] + s[1..][..i - 1] == s[..i];
      assert s[1..][i..] == s[i + 1..];
    }
  }

  /** Removing a listener that is not registered changes nothing. */
  lemma {:induction false} RemoveFirstAbsent(s: seq<ListenerId>, x: ListenerId)
    requires x !in s
    ensures RemoveFirst(s, x) == s
  {
    if s != [] {
      RemoveFirstAbsent(s[1..], x);
    }
  }

  /** Unregistering removes exactly one registration of `x` (none if it had none). */
  lemma {:induction false} RemoveFirstOneOccurrence(s: seq<ListenerId>, x: ListenerId)
    ensures multiset(RemoveFirst(s, x)) == multiset(s) - multiset{x}
  {
    if s != [] {
      assert s == [s[0]] + s[1..];
      if s[0] != x {
        RemoveFirstOneOccurrence(s[1..], x);
        assert multiset(RemoveFirst(s, x)) == multiset{s[0]} + multiset(RemoveFirst(s[1..], x));
      }
    }
  }

  /** Registering a new listener and unregistering it restores the registry. */
  lemma {:induction false} UnregisterUndoesRegister(s: seq<ListenerId>, x: ListenerId)
    requires x !in s
    ensures RemoveFirst(s + [x], x) == s
  {
    assert (s + [x])[..|s|] == s;
    RemoveFirstSplices(s + [x], x, |s|);
    assert (s + [x])[|s| + 1..] == [];
  }

  /** `List.indexOf`: the first index holding `x`, or -1. */
  method IndexOf(s: seq<ListenerId>, x: ListenerId) returns (i: int)
    ensures -1 <= i < |s|
    ensures i == -1 <==> x !in s
    ensures 0 <= i ==> s[i] == x && x !in s[..i]
  {
    i := 0;
    while i < |s|
      invariant 0 <= i <= |s|
      invariant x !in s[..i]
    {
      if s[i] == x {
        return;
      }
      assert s[..i + 1] == s[..i] + [s[i]];
      i := i + 1;
    }
    assert s[..i] == s;
    i := -1;
  }

  /** The calls `onNewLocation` makes: every registered listener once, in
      registration order, with the location's latitude and longitude. */
  function Fanout(ls: seq<ListenerId>, loc: Location): (d: seq<Delivery>)
    ensures |d| == |ls|
    ensures forall i :: 0 <= i < |ls| ==> d[i] == Delivery(ls[i], loc.latitude, loc.longitude)
  {
    if ls == [] then []
    else Fanout(ls[..|ls| - 1], loc) + [Delivery(ls[|ls| - 1], loc.latitude, loc.longitude)]
  }

  /** A listener that was registered and then unregistered hears nothing. */
  lemma UnregisteredHearsNothing(s: seq<ListenerId>, x: ListenerId, loc: Location)
    requires x !in s
    ensures forall d :: d in Fanout(RemoveFirst(s + [x], x), loc) ==> d.listener != x
  {
    UnregisterUndoesRegister(s, x);
  }

  /** The heading correction of `onDirectionUpdate`: at most one shift by a
      full turn. Its two independent `if`s agree on every input with the
      `if`/`else if` of `CompassHeading.NormalizeAzimuth`, since the second can
      fire only when the first did not. */
  function WrapHeading(heading: real): (r: real)
    ensures r == heading || r == heading - 360.0 || r == heading + 360.0
    ensures -360.0 <= heading <= 720.0 ==> 0.0 <= r <= 360.0
    ensures 0.0 <= heading <= 360.0 ==> r == heading
  {
    var h := heading;
    var h' := if h > 360.0 then h - 360.0 else h;
    if h' < 0.0 then h' + 360.0 else h'
  }

  // ---------------------------------------------------------------------------
  // The service

  class Service {
    var calibrated: bool
    var gpsReady: bool
    var mHeading: real
    var mBearing: real
    var history: seq<real>
    var correctionFactor: real
    var realHeading: real
    var currentLoc: Option<Location>
    var listeners: seq<ListenerId>
    /** Every `onLocationUpdate` call made to a listener, in order. */
    var deliveries: seq<Delivery>
    /** How many times `gps.off()` has been called. */
    var gpsOffCalls: nat
    /** The history on which calibration succeeded. */
    ghost var calibrationHistory: seq<real>

    ghost predicate Valid()
      reads this
    {
      && |history| <= HISTORY_COUNT
      && (history != [] ==> gpsReady)
      && gpsOffCalls == (if calibrated then 1 else 0)
      && (!calibrated ==> correctionFactor == 0.0)
      && (calibrated ==>
            && |history| == HISTORY_COUNT
            && CalibrationSucceeds(calibrationHistory)
            && correctionFactor == Sums.Mean(calibrationHistory))
    }

    constructor ()
      ensures Valid()
      ensures !calibrated && !gpsReady && history == [] && currentLoc == None
      ensures mHeading == 0.0 && mBearing == 0.0 && correctionFactor == 0.0 && realHeading == 0.0
      ensures listeners == [] && deliveries == [] && gpsOffCalls == 0
    {
      calibrated := false;
      gpsReady := false;
      mHeading := 0.0;
      mBearing := 0.0;
      history := [];
      correctionFactor := 0.0;
      realHeading := 0.0;
      currentLoc := None;
      listeners := [];
      deliveries := [];
      gpsOffCalls := 0;
      calibrationHistory := [];
    }

    /** `register`: append to the listener list. */
    method Register(listener: ListenerId)
      modifies this`listeners
      ensures listeners == old(listeners) + [listener]
    {
      listeners := listeners + [listener];
    }

    /** `unregister`: remove the first registration of `listener`. */
    method Unregister(listener: ListenerId)
      modifies this`listeners
      ensures listeners == RemoveFirst(old(listeners), listener)
      ensures multiset(listeners) == multiset(old(listeners)) - multiset{listener}
    {
      RemoveFirstOneOccurrence(listeners, listener);
      var i := IndexOf(listeners, listener);
      if i >= 0 {
        RemoveFirstSplices(listeners, listener, i);
        listeners := listeners[..i] + listeners[i + 1..];
      } else {
        RemoveFirstAbsent(listeners, listener);
      }
    }

    /** `onNewLocation`: adopt `loc` and tell every listener, in order. */
    method OnNewLocation(loc: Location)
      modifies this`currentLoc, this`deliveries
      ensures currentLoc == Some(loc)
      ensures deliveries == old(deliveries) + Fanout(listeners, loc)
    {
      currentLoc := Some(loc);
      for i := 0 to |listeners|
        invariant currentLoc == Some(loc)
        invariant deliveries == old(deliveries) + Fanout(listeners[..i], loc)
      {
        assert listeners[..i + 1][..i] == listeners[..i];
        deliveries := deliveries + [Delivery(listeners[i], loc.latitude, loc.longitude)];
      }
      assert listeners[..|listeners|] == listeners;
    }

    /** `onDirectionUpdate`: recompute the corrected heading. */
    method OnDirectionUpdate()
      modifies this`realHeading
      ensures realHeading == WrapHeading(mHeading + correctionFactor)
    {
      realHeading := mHeading + correctionFactor;
      if realHeading > 360.0 {
        realHeading := realHeading - 360.0;
      }
      if realHeading < 0.0 {
        realHeading := realHeading + 360.0;
      }
    }

    /** The compass listener's `onHeadingUpdate`. */
    method OnHeadingUpdate(heading: real)
      requires Valid()
      modifies this`mHeading, this`realHeading
      ensures Valid()
      ensures mHeading == heading
      ensures realHeading == WrapHeading(heading + correctionFactor)
      ensures !calibrated ==> realHeading == WrapHeading(heading)
    {
      mHeading := heading;
      OnDirectionUpdate();
    }

    /** The GPS listener's `onBearingUpdate`. */
    method OnBearingUpdate(bearing: real)
      requires Valid()
      modifies this`mBearing, this`realHeading
      ensures Valid()
      ensures mBearing == bearing
      ensures realHeading == WrapHeading(mHeading + correctionFactor)
    {
      mBearing := bearing;
      OnDirectionUpdate();
    }

    /** The GPS listener's `onLocationUpdate`: a fix always marks the GPS ready;
        it becomes the position only while uncalibrated. */
    method OnLocationUpdate(loc: Location)
      requires Valid()
      modifies this`gpsReady, this`currentLoc, this`deliveries
      ensures Valid()
      ensures gpsReady
      ensures !calibrated ==>
        currentLoc == Some(loc) && deliveries == old(deliveries) + Fanout(listeners, loc)
      ensures calibrated ==> currentLoc == old(currentLoc) && deliveries == old(deliveries)
    {
      gpsReady := true;
      if !calibrated {
        OnNewLocation(loc);
      }
    }

    /** `calibrate`: on a full history whose standard deviation is within the
        threshold, freeze its mean as the correction factor. */
    method Calibrate() returns (ok: bool)
      modifies this`correctionFactor
      ensures ok == CalibrationSucceeds(history)
      ensures correctionFactor == if ok then Sums.Mean(history) else old(correctionFactor)
    {
      if |history| != HISTORY_COUNT {
        return false;
      }
      var avg, variance := MeanAndVariance(history);
      if variance > CALIBRATION_THRESHOLD * CALIBRATION_THRESHOLD {
        return false;
      }
      correctionFactor := avg;
      return true;
    }

    /** The history update of `onStep`: append, then evict from the front
        until at most `HISTORY_COUNT` remain. */
    method RecordDifference(diff: real)
      requires Valid() && gpsReady
      modifies this`history
      ensures Valid()
      ensures history == Recent(old(history) + [diff], HISTORY_COUNT)
    {
      ghost var full := history + [diff];
      history := history + [diff];
      while |history| > HISTORY_COUNT
        invariant |history| >= 1
        invariant Recent(history, HISTORY_COUNT) == Recent(full, HISTORY_COUNT)
        decreases |history|
      {
        assert Recent(history[1..], HISTORY_COUNT) == Recent(history, HISTORY_COUNT);
        history := history[1..];
      }
    }

    /** The `!calibrated && calibrate()` branch of `onStep`: on success the
        service is calibrated and the GPS switched off. */
    method TryCalibrate()
      requires Valid() && !calibrated
      modifies this`calibrated, this`gpsOffCalls, this`correctionFactor, this`calibrationHistory
      ensures Valid()
      ensures calibrated == CalibrationSucceeds(history)
      ensures calibrated ==> correctionFactor == Sums.Mean(history) && gpsOffCalls == old(gpsOffCalls) + 1
      ensures !calibrated ==> correctionFactor == old(correctionFactor) && gpsOffCalls == old(gpsOffCalls)
    {
      var ok := Calibrate();
      if ok {
        calibrated := true;
        gpsOffCalls := gpsOffCalls + 1;
        calibrationHistory := history;
      }
    }

    /** `calculateNewLocation`: one step along the current corrected heading. */
    method CalculateNewLocation(destination: DeadReckoning)
      requires Valid() && currentLoc.Some?
      modifies this`currentLoc, this`deliveries
      ensures Valid()
      ensures currentLoc == Some(destination(old(currentLoc).value, realHeading))
      ensures deliveries == old(deliveries) + Fanout(listeners, currentLoc.value)
    {
      OnNewLocation(destination(currentLoc.value, realHeading));
    }

    /** `onStep`. */
    method OnStep(destination: DeadReckoning)
      requires Valid()
      modifies this`history, this`calibrated, this`gpsOffCalls, this`correctionFactor
      modifies this`calibrationHistory, this`currentLoc, this`deliveries
      ensures Valid()
      // the history grows only while the GPS has a non-zero bearing
      ensures history == if old(gpsReady) && old(mBearing) != 0.0
        then Recent(old(history) + [old(mBearing) - old(mHeading)], HISTORY_COUNT)
        else old(history)
      // calibration: attempted only while uncalibrated, then frozen for good
      ensures old(calibrated) ==>
        calibrated && correctionFactor == old(correctionFactor) && gpsOffCalls == old(gpsOffCalls)
      ensures !old(calibrated) ==> calibrated == CalibrationSucceeds(history)
      ensures !old(calibrated) && calibrated ==>
        correctionFactor == Sums.Mean(history) && gpsOffCalls == old(gpsOffCalls) + 1
      ensures !calibrated ==> correctionFactor == old(correctionFactor) && gpsOffCalls == old(gpsOffCalls)
      // dead reckoning: only when calibrated and a position exists
      ensures calibrated && old(currentLoc).Some? ==>
        && currentLoc == Some(destination(old(currentLoc).value, realHeading))
        && deliveries == old(deliveries) + Fanout(listeners, currentLoc.value)
      ensures !(calibrated && old(currentLoc).Some?) ==>
        currentLoc == old(currentLoc) && deliveries == old(deliveries)
    {
      if gpsReady && mBearing != 0.0 {
        var diff := mBearing - mHeading;
        RecordDifference(diff);
      }
      if !calibrated {
        TryCalibrate();
      }
      if calibrated && currentLoc.Some? {
        CalculateNewLocation(destination);
      }
    }
  }
}
