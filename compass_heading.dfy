/** CompassHeading: pairs gravity and magnetic-field readings, asks the platform
    for an orientation once a fresh pair exists, normalises the azimuth into
    [0, 360] and keeps the last three headings in a ring buffer
    (src/com/zacharyliu/stepnavigation/CompassHeading.java). */
module CompassHeading {
  import opened JavaMath
  import Sums

  /** Android's `Sensor.TYPE_MAGNETIC_FIELD`. */
  const TYPE_MAGNETIC_FIELD: int := 2
  /** Android's `Sensor.TYPE_GRAVITY`. */
  const TYPE_GRAVITY: int := 9
  const AVERAGE_SIZE: int := 3

  /** The axis remap applied to every reading: x stays, the new y is the old z,
      the new z is minus the old y; any further values are kept. */
  function Remapped(v: seq<real>): (r: seq<real>)
    requires |v| >= 3
    ensures |r| == |v|
  {
    [v[0], v[2], -v[1]] + v[3..]
  }

  /** The SensorManager oracle: from the (remapped) gravity and magnetic readings,
      `getRotationMatrix` followed by `getOrientation` yields the azimuth in
      radians, or `None` when `getRotationMatrix` reports failure. */
  type Orientation = (seq<real>, seq<real>) -> Option<real>

  /** The azimuth normalisation: at most one shift by a full turn. */
  function NormalizeAzimuth(azimuth: real): (r: real)
    ensures r == azimuth || r == azimuth - 360.0 || r == azimuth + 360.0
    ensures -360.0 <= azimuth <= 720.0 ==> 0.0 <= r <= 360.0
    ensures 0.0 <= azimuth <= 360.0 ==> r == azimuth
    ensures azimuth > 720.0 ==> r > 360.0
    ensures azimuth < -360.0 ==> r < 0.0
  {
    if azimuth > 360.0 then azimuth - 360.0
    else if azimuth < 0.0 then azimuth + 360.0
    else azimuth
  }

  /** The ring buffer write: store `x` at `index` and advance the index,
      wrapping at the buffer's size. */
  function RingPush(slots: seq<real>, index: int, x: real): (r: (seq<real>, int))
    requires |slots| == AVERAGE_SIZE && 0 <= index < AVERAGE_SIZE
    ensures |r.0| == AVERAGE_SIZE && 0 <= r.1 < AVERAGE_SIZE
    ensures r.1 == (index + 1) % AVERAGE_SIZE
    ensures r.0[index] == x
    ensures forall k :: 0 <= k < AVERAGE_SIZE && k != index ==> r.0[k] == slots[k]
  {
    (slots[index := x], if index + 1 == AVERAGE_SIZE then 0 else index + 1)
  }

  /** Three consecutive writes from `index` place the three values at
      `index`, `index + 1` and `index + 2`, counted round the ring. */
  lemma ThreeWrites(slots: seq<real>, index: int, a: real, b: real, c: real)
    requires |slots| == AVERAGE_SIZE && 0 <= index < AVERAGE_SIZE
    ensures var p1 := RingPush(slots, index, a);
      var p2 := RingPush(p1.0, p1.1, b);
      var p3 := RingPush(p2.0, p2.1, c);
      && p3.1 == index
      && p3.0 == if index == 0 then [a, b, c] else if index == 1 then [c, a, b] else [b, c, a]
  {
    var p1 := RingPush(slots, index, a);
    var p2 := RingPush(p1.0, p1.1, b);
    assert p1.1 == (index + 1) % 3 && p2.1 == (index + 2) % 3;
  }

  /** Three consecutive writes leave exactly the three values written in the
      buffer, whatever it held and wherever the index stood: the buffer's
      average is the average of the three latest headings. */
  lemma LastThreeHeadings(slots: seq<real>, index: int, a: real, b: real, c: real)
    requires |slots| == AVERAGE_SIZE && 0 <= index < AVERAGE_SIZE
    ensures var p1 := RingPush(slots, index, a);
      var p2 := RingPush(p1.0, p1.1, b);
      var p3 := RingPush(p2.0, p2.1, c);
      p3.1 == index && Sums.Mean(p3.0) == (a + b + c) / 3.0
  {
    ThreeWrites(slots, index, a, b, c);
    var p1 := RingPush(slots, index, a);
    var p2 := RingPush(p1.0, p1.1, b);
    var s := RingPush(p2.0, p2.1, c).0;
    MeanOfThree(s);
  }

  lemma MeanOfThree(s: seq<real>)
    requires |s| == 3
    ensures Sums.Mean(s) == (s[0] + s[1] + s[2]) / 3.0
  {
    Sums.SumOfThree(s);
  }

  /** A clone of `values` with the axes remapped in place. */
  method RemapAxes(values: seq<real>) returns (readings: array<real>)
    requires |values| >= 3
    ensures fresh(readings)
    ensures readings[..] == Remapped(values)
  {
    readings := new real[|values|](i requires 0 <= i < |values| => values[i]);
    var y := readings[1];
    var z := readings[2];
    readings[2] := -y;
    readings[1] := z;
  }

  /** The anonymous `SensorEventListener` inside `CompassHeading`. */
  class HeadingListener {
    var accelReadings: array?<real>
    var magnetReadings: array?<real>
    var azimuth: real
    var azimuthReady: bool
    var accelReady: bool
    var magnetReady: bool
    const history: array<real>
    var historyIndex: int

    ghost predicate Valid()
      reads this
    {
      && history.Length == AVERAGE_SIZE
      && 0 <= historyIndex < AVERAGE_SIZE
      && (accelReady ==> accelReadings != null)
      && (magnetReady ==> magnetReadings != null)
      && accelReadings != history
      && magnetReadings != history
    }

    constructor ()
      ensures Valid() && fresh(history)
      ensures history[..] == [0.0, 0.0, 0.0] && historyIndex == 0
      ensures !accelReady && !magnetReady && !azimuthReady
      ensures accelReadings == null && magnetReadings == null
    {
      accelReadings := null;
      magnetReadings := null;
      azimuth := 0.0;
      azimuthReady := false;
      accelReady := false;
      magnetReady := false;
      history := new real[AVERAGE_SIZE](_ => 0.0);
      historyIndex := 0;
      new;
      assert history[..] == [0.0, 0.0, 0.0];
    }

    /** The listener's private `average()`: the mean of the three slots. */
    method Average() returns (avg: real)
      requires Valid()
      ensures avg == Sums.Mean(history[..])
    {
      var sum := 0.0;
      for i := 0 to history.Length
        invariant sum == Sums.Sum(history[..i])
      {
        assert history[..i + 1][..i] == history[..i];
        sum := sum + history[i];
      }
      assert history[..history.Length] == history[..];
      avg := sum / history.Length as real;
    }

    /** The listener's `onSensorChanged` for a reading of `sensorType`.
        `heading` is the value passed to `onHeadingUpdate`, or `None` when the
        listener is not called. */
    method OnSensorChanged(sensorType: int, values: seq<real>, orientation: Orientation)
      returns (heading: Option<real>)
      requires Valid()
      requires sensorType == TYPE_GRAVITY || sensorType == TYPE_MAGNETIC_FIELD ==> |values| >= 3
      modifies this, history
      ensures Valid()
      // the reading is stored, remapped, in a fresh array; the other one is kept
      ensures sensorType == TYPE_GRAVITY ==>
        accelReadings != null && fresh(accelReadings) && accelReadings[..] == Remapped(values)
      ensures sensorType != TYPE_GRAVITY ==> accelReadings == old(accelReadings)
      ensures sensorType == TYPE_MAGNETIC_FIELD ==>
        magnetReadings != null && fresh(magnetReadings) && magnetReadings[..] == Remapped(values)
      ensures sensorType != TYPE_MAGNETIC_FIELD ==> magnetReadings == old(magnetReadings)
      // no fresh pair: no attempt, no call, the flags only record what arrived
      ensures !((sensorType == TYPE_GRAVITY || old(accelReady)) && (sensorType == TYPE_MAGNETIC_FIELD || old(magnetReady))) ==>
        && heading == None
        && accelReady == (sensorType == TYPE_GRAVITY || old(accelReady))
        && magnetReady == (sensorType == TYPE_MAGNETIC_FIELD || old(magnetReady))
        && history[..] == old(history[..]) && historyIndex == old(historyIndex)
        && azimuth == old(azimuth) && azimuthReady == old(azimuthReady)
      // a fresh pair: one attempt, after which both flags are down
      ensures (sensorType == TYPE_GRAVITY || old(accelReady)) && (sensorType == TYPE_MAGNETIC_FIELD || old(magnetReady)) ==>
        && !accelReady && !magnetReady
        && accelReadings != null && magnetReadings != null
        && var o := orientation(accelReadings[..], magnetReadings[..]);
        && (o.None? ==>
              && heading == None
              && history[..] == old(history[..]) && historyIndex == old(historyIndex)
              && azimuth == old(azimuth) && azimuthReady == old(azimuthReady))
        && (o.Some? ==>
              && heading == Some(NormalizeAzimuth(ToDegrees(o.value)))
              && azimuth == heading.value && azimuthReady
              && (history[..], historyIndex) == RingPush(old(history[..]), old(historyIndex), heading.value))
    {
      Store(sensorType, values);
      heading := None;
      if accelReady && magnetReady {
        heading := Attempt(orientation);
      }
    }

    /** The `switch` of `onSensorChanged`: keep the remapped reading and raise its flag. */
    method Store(sensorType: int, values: seq<real>)
      requires Valid()
      requires sensorType == TYPE_GRAVITY || sensorType == TYPE_MAGNETIC_FIELD ==> |values| >= 3
      modifies this`accelReadings, this`magnetReadings, this`accelReady, this`magnetReady
      ensures Valid()
      ensures sensorType == TYPE_GRAVITY ==>
        accelReadings != null && fresh(accelReadings) && accelReadings[..] == Remapped(values)
      ensures sensorType != TYPE_GRAVITY ==> accelReadings == old(accelReadings)
      ensures sensorType == TYPE_MAGNETIC_FIELD ==>
        magnetReadings != null && fresh(magnetReadings) && magnetReadings[..] == Remapped(values)
      ensures sensorType != TYPE_MAGNETIC_FIELD ==> magnetReadings == old(magnetReadings)
      ensures accelReady == (sensorType == TYPE_GRAVITY || old(accelReady))
      ensures magnetReady == (sensorType == TYPE_MAGNETIC_FIELD || old(magnetReady))
    {
      if sensorType == TYPE_GRAVITY {
        accelReadings := RemapAxes(values);
        accelReady := true;
      } else if sensorType == TYPE_MAGNETIC_FIELD {
        magnetReadings := RemapAxes(values);
        magnetReady := true;
      }
    }

    /** The attempt made once both readings are fresh: on success, normalise the
        azimuth, record it and report it; in every case lower both flags. */
    method Attempt(orientation: Orientation) returns (heading: Option<real>)
      requires Valid() && accelReady && magnetReady
      modifies this`azimuth, this`azimuthReady, this`accelReady, this`magnetReady, this`historyIndex, history
      ensures Valid()
      ensures !accelReady && !magnetReady
      ensures var o := orientation(accelReadings[..], magnetReadings[..]);
        && (o.None? ==>
              && heading == None
              && history[..] == old(history[..]) && historyIndex == old(historyIndex)
              && azimuth == old(azimuth) && azimuthReady == old(azimuthReady))
        && (o.Some? ==>
              && heading == Some(NormalizeAzimuth(ToDegrees(o.value)))
              && azimuth == heading.value && azimuthReady
              && (history[..], historyIndex) == RingPush(old(history[..]), old(historyIndex), heading.value))
    {
      heading := None;
      var success := orientation(accelReadings[..], magnetReadings[..]);
      if success.Some? {
        RecordAzimuth(ToDegrees(success.value));
        heading := Some(azimuth);
      }
      accelReady := false;
      magnetReady := false;
    }

    /** The successful branch of the attempt: normalise the azimuth, mark it
        ready and push it into the ring buffer. */
    method RecordAzimuth(degrees: real)
      requires Valid()
      modifies this`azimuth, this`azimuthReady, this`historyIndex, history
      ensures Valid()
      ensures azimuth == NormalizeAzimuth(degrees) && azimuthReady
      ensures (history[..], historyIndex) == RingPush(old(history[..]), old(historyIndex), azimuth)
    {
      azimuth := degrees;
      if azimuth > 360.0 {
        azimuth := azimuth - 360.0;
      } else if azimuth < 0.0 {
        azimuth := azimuth + 360.0;
      }
      if !azimuthReady {
        azimuthReady := true;
      }
      history[historyIndex] := azimuth;
      historyIndex := historyIndex + 1;
      if historyIndex == AVERAGE_SIZE {
        historyIndex := 0;
      }
      var average := Average();
    }
  }
}
