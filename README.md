# StepNavigation in Dafny

A verified model of the sensor-fusion core of StepNavigation, an Android
dead-reckoning service. The service estimates a walker's position from three
sources:

- a step detector, which turns accelerometer spikes into step events with a
  debounce ("release") timer;
- a compass, which pairs gravity and magnetic-field readings and asks the
  platform for an azimuth;
- the GPS, which supplies a bearing and position fixes.

Once a GPS fix has arrived, every step taken while the last GPS bearing is
non-zero records `mBearing - mHeading` in a history of the last ten. This goes
on after `gps.off()`, because neither `gpsReady` nor `mBearing` is ever reset,
but nothing reads the history once the service is calibrated. Calibration
needs the ten recorded differences to have a standard deviation of at most 10.
When that holds, their mean is frozen as a correction factor and the GPS is
switched off. From then on, once a position is known, each step moves the
position one step length along the corrected heading, and every registered
listener is told the new position. The heading is corrected only from the
next compass or bearing update (see below).

Doubles are modelled as Dafny `real`. Java's truncating `%` on doubles is
written out as `JavaMath.JavaRem`, and `Math.PI` is its exact binary value.
`Math.sqrt` is never computed: every test of a square root against a bound is
stated on squares, and a lemma shows the two tests agree. The trigonometry,
the platform's rotation-matrix/orientation calls and the destination-point
formula are parameters of function type.

Modules, one per source file plus two shared ones:

| file | module | models |
|---|---|---|
| `java_math.dfy` | `JavaMath` | Java `%` on doubles, `Math.toRadians`/`toDegrees`, `Math.PI`, square-root comparisons, `Option` |
| `sums.dfy` | `Sums` | left-to-right sums and means of a `seq<real>` |
| `angle_math.dfy` | `AngleMath` | `AngleMath.java` |
| `step_detector.dfy` | `StepDetector` | `StepDetector.java` |
| `compass_heading.dfy` | `CompassHeading` | `CompassHeading.java` |
| `step_navigation_service.dfy` | `StepNavigationService` | `StepNavigationService.java` |

Behaviour of the code worth knowing:

- `(diff + 180) % 360 - 180` is the usual wrap into [-180, 180), but Java's
  truncating `%` leaves `difference(DEGREES, 10, 350)` at -340 (see Findings).
- `calibrate` takes the plain arithmetic mean and sample variance of the raw
  `mBearing - mHeading` values. No wrap is applied to them.
- A step that completes calibration does not recompute `realHeading`, so that
  step's move uses the heading from before the correction.
  `StepNavigationService.Service.OnStep` states this: the move uses
  `realHeading` unchanged.
- Recalibration is an unimplemented TODO in the code, so `calibrated` never
  goes back to false.

## Model

| member | source | states |
|---|---|---|
| JavaMath.JavaRemBounds | src/com/zacharyliu/stepnavigation/AngleMath.java:10 | Java's `%` on doubles: the remainder has the sign of the dividend and is smaller in magnitude than the divisor |
| JavaMath.JavaRem | src/com/zacharyliu/stepnavigation/AngleMath.java:10 | Java's `%` on doubles, truncating the quotient toward zero; the dividend minus the remainder is a whole multiple of the divisor |
| JavaMath.JavaRemSmall | src/com/zacharyliu/stepnavigation/AngleMath.java:10 | a dividend already inside (-m, m) is its own remainder |
| JavaMath.JavaRemZero | src/com/zacharyliu/stepnavigation/AngleMath.java:10 | the remainder is zero exactly when the quotient is a whole number |
| JavaMath.ToRadians | src/com/zacharyliu/stepnavigation/AngleMath.java:18-22 | `Math.toRadians`: 180 degrees is `Math.PI`, and the sign of the angle is kept |
| JavaMath.ToDegrees | src/com/zacharyliu/stepnavigation/AngleMath.java:33-35 | `Math.toDegrees`: `Math.PI` is 180 degrees, and the sign of the angle is kept |
| JavaMath.DegreesRadiansRoundTrip | src/com/zacharyliu/stepnavigation/AngleMath.java:17-37 | `toDegrees(toRadians(x)) == x` and the reverse |
| JavaMath.RootExceeds | src/com/zacharyliu/stepnavigation/StepNavigationService.java:151-158 | for a non-negative square root, "root above bound" holds exactly when "square above bound squared" does |
| AngleMath.Wrap | src/com/zacharyliu/stepnavigation/AngleMath.java:9-12 | the wrapped value `(d + h) % 2h - h` is always below `h` |
| AngleMath.Difference | src/com/zacharyliu/stepnavigation/AngleMath.java:7-15 | DEGREES results are below 180, RADIANS results below `Math.PI`; any other `angleType` returns `angle1 - angle2` unchanged |
| AngleMath.WrapFacts | src/com/zacharyliu/stepnavigation/AngleMath.java:9-12 | the wrap moves by whole turns only; it is the identity on [-h, h) and lands in [-h, h) whenever `d >= -h`; below `-h` it stays at or below `-h`, reaching `-h` exactly when `d + h` is a whole number of turns |
| AngleMath.DifferenceDegrees | src/com/zacharyliu/stepnavigation/AngleMath.java:8-10 | in degrees: congruent to `a - b` mod 360; equal to `a - b` on [-180, 180); in [-180, 180) when `a - b >= -180`; otherwise at or below -180 |
| AngleMath.DifferenceRadians | src/com/zacharyliu/stepnavigation/AngleMath.java:8-12 | in radians: congruent to `a - b` mod 2·`Math.PI`; equal to `a - b` on [-PI, PI); in [-PI, PI) when `a - b >= -PI`; otherwise at or below -PI, reaching -PI exactly when `a - b + PI` is a whole number of turns |
| AngleMath.DifferenceBelowRange | src/com/zacharyliu/stepnavigation/AngleMath.java:10 | `difference(DEGREES, 10, 350) == -340` and `difference(DEGREES, 350, 10) == -20` |
| AngleMath.FloorRem | src/com/zacharyliu/stepnavigation/AngleMath.java:10 | a floor-based remainder lies in [0, m) and is congruent to its dividend |
| AngleMath.ShortestDifference | src/com/zacharyliu/stepnavigation/AngleMath.java:10 | the intended difference: always in [-180, 180) and congruent to `a - b` mod 360 |
| AngleMath.ShortestDifferenceAgrees | src/com/zacharyliu/stepnavigation/AngleMath.java:10 | for `a - b >= -180` it equals the code's `difference`; it maps 350 to 10 to 20 and 10 to 350 to -20 |
| AngleMath.TurnsApartEqual | src/com/zacharyliu/stepnavigation/AngleMath.java:10 | two values in one half-open turn [-180, 180) that are whole turns apart from the same angle are equal |
| AngleMath.AllToRadians | src/com/zacharyliu/stepnavigation/AngleMath.java:19-21 | the converted array has the same length and holds `toRadians` of each old element |
| AngleMath.ConvertToRadians | src/com/zacharyliu/stepnavigation/AngleMath.java:18-22 | the caller's array is overwritten element by element with `toRadians` of its old contents |
| AngleMath.CircularSums | src/com/zacharyliu/stepnavigation/AngleMath.java:24-30 | the loop leaves the sums of the cosines and of the sines of the array |
| AngleMath.WeightedCircularSums | src/com/zacharyliu/stepnavigation/AngleMath.java:46-54 | the loop reads `weights[i]` for every index of `angles` and leaves the weighted sums and the sum of those weights |
| AngleMath.CircularMean | src/com/zacharyliu/stepnavigation/AngleMath.java:32-35 | the mean `average` reports is missing (NaN) exactly for an empty array |
| AngleMath.WeightedCircularMean | src/com/zacharyliu/stepnavigation/AngleMath.java:56-59 | the mean `weightedAverage` reports is missing exactly when the weights of the angles sum to zero |
| AngleMath.Average | src/com/zacharyliu/stepnavigation/AngleMath.java:17-37 | in DEGREES mode the caller's array now holds radians, otherwise it is untouched; the result is atan2 of the mean sine and mean cosine, in the caller's unit, or `None` (NaN) for an empty array |
| AngleMath.WeightedAverage | src/com/zacharyliu/stepnavigation/AngleMath.java:39-61 | the same side effect on `angles`; the result is atan2 of the weighted mean sine and cosine, `None` when the weights sum to zero |
| AngleMath.UnitWeightedSums | src/com/zacharyliu/stepnavigation/AngleMath.java:50-54 | with every weight 1 the weighted sums are the plain sums |
| AngleMath.UnitWeightsGiveMean | src/com/zacharyliu/stepnavigation/AngleMath.java:17-61 | with every weight 1, `weightedAverage` gives what `average` gives |
| Sums.SumBounds | src/com/zacharyliu/stepnavigation/StepNavigationService.java:141-144 | a sum of n values in [lo, hi] lies in [n*lo, n*hi] |
| Sums.MeanWithin | src/com/zacharyliu/stepnavigation/StepNavigationService.java:141-145 | a mean of values in [lo, hi] lies in [lo, hi] |
| Sums.SumConstant | src/com/zacharyliu/stepnavigation/StepNavigationService.java:141-144 | summing n copies of c gives n*c |
| Sums.SumOfThree | src/com/zacharyliu/stepnavigation/CompassHeading.java:47-53 | the sum of three slots is their explicit sum |
| StepDetector.AboveThreshold | src/com/zacharyliu/stepnavigation/StepDetector.java:35-39 | the threshold test, on squares: r0^2 + r1^2 + r2^2 above (1.3 * 9.8)^2 |
| StepDetector.Fires | src/com/zacharyliu/stepnavigation/StepDetector.java:39-43 | a sample fires a step when it is above threshold and its clock reading minus the old `lastActive` exceeds 100 ms |
| StepDetector.NextLastActive | src/com/zacharyliu/stepnavigation/StepDetector.java:39-45 | every above-threshold sample moves `lastActive` to its clock reading; other samples leave it |
| StepDetector.AboveThresholdMeansMagnitude | src/com/zacharyliu/stepnavigation/StepDetector.java:35-39 | testing the squared norm against (1.3 * 9.8)^2 is testing `sqrt(r0^2 + r1^2 + r2^2) / 9.8 > 1.3` |
| StepDetector.SquaredNormIgnoresExtraReadings | src/com/zacharyliu/stepnavigation/StepDetector.java:36 | only the first three readings enter the magnitude |
| StepDetector.SquaredMagnitude | src/com/zacharyliu/stepnavigation/StepDetector.java:35-36 | the loop leaves the sum of the squares of the first three readings |
| StepDetector.Detector.OnSensorChanged | src/com/zacharyliu/stepnavigation/StepDetector.java:32-46 | below threshold: no step and `lastActive` unchanged; above threshold: `lastActive` becomes the clock reading, and a step fires exactly when that reading minus the old `lastActive` exceeds 100 ms |
| StepDetector.Detector.constructor | src/com/zacharyliu/stepnavigation/StepDetector.java:17 | `lastActive` starts at 0 |
| StepDetector.StepsFrom | src/com/zacharyliu/stepnavigation/StepDetector.java:39-45 | one step flag per sample |
| StepDetector.BurstFiresOnlyFirst | src/com/zacharyliu/stepnavigation/StepDetector.java:39-45 | above-threshold samples at most 100 ms apart fire at most one step, at the first sample, and only if that sample is more than 100 ms after `lastActive` |
| StepDetector.FiredAfterRelease | src/com/zacharyliu/stepnavigation/StepDetector.java:40-44 | with a clock that never runs backwards, a fired step is more than 100 ms after the starting `lastActive` |
| StepDetector.StepsSpacedByRelease | src/com/zacharyliu/stepnavigation/StepDetector.java:40-44 | with a clock that never runs backwards, any two fired steps are more than 100 ms apart |
| StepDetector.TwoCrossings | src/com/zacharyliu/stepnavigation/StepDetector.java:17-44 | crossings 50 ms apart give one step and 150 ms apart give two; from a fresh detector a crossing at time 0 does not fire |
| CompassHeading.Remapped | src/com/zacharyliu/stepnavigation/CompassHeading.java:66-70 | the remapped reading has the same length as the event's values |
| CompassHeading.RemapAxes | src/com/zacharyliu/stepnavigation/CompassHeading.java:66-78 | a fresh clone of the values with index 0 kept, new[1] = old[2] and new[2] = -old[1] |
| CompassHeading.NormalizeAzimuth | src/com/zacharyliu/stepnavigation/CompassHeading.java:95-99 | at most one shift by 360; a raw value in [-360, 720] ends in [0, 360]; [0, 360] is left alone; outside [-360, 720] the result stays out of range |
| CompassHeading.RingPush | src/com/zacharyliu/stepnavigation/CompassHeading.java:101-102 | the slot at the index gets the azimuth, no other slot changes, and the index advances modulo 3 and stays in [0, 3) |
| CompassHeading.ThreeWrites | src/com/zacharyliu/stepnavigation/CompassHeading.java:101-102 | three successive writes bring the index back and leave exactly the three values written, in ring order |
| CompassHeading.LastThreeHeadings | src/com/zacharyliu/stepnavigation/CompassHeading.java:101-103 | after three writes the buffer's average is the average of the three latest headings |
| CompassHeading.MeanOfThree | src/com/zacharyliu/stepnavigation/CompassHeading.java:47-53 | the mean of three slots is their sum divided by 3 |
| CompassHeading.HeadingListener.constructor | src/com/zacharyliu/stepnavigation/CompassHeading.java:32-40 | no readings, flags down, index 0, three zero slots |
| CompassHeading.HeadingListener.Average | src/com/zacharyliu/stepnavigation/CompassHeading.java:47-53 | `average()` is the sum of the three slots divided by 3 |
| CompassHeading.HeadingListener.Store | src/com/zacharyliu/stepnavigation/CompassHeading.java:64-81 | a gravity or magnetic reading is stored remapped in a fresh array and raises its own flag; the other reading and flag are kept |
| CompassHeading.HeadingListener.RecordAzimuth | src/com/zacharyliu/stepnavigation/CompassHeading.java:89-103 | the azimuth becomes the normalised value, is marked ready and is pushed into the ring buffer |
| CompassHeading.HeadingListener.Attempt | src/com/zacharyliu/stepnavigation/CompassHeading.java:82-111 | if the oracle fails, no listener call and no change to the buffer or azimuth; on success the listener receives the normalised azimuth, which is pushed into the ring; both flags end down either way |
| CompassHeading.HeadingListener.OnSensorChanged | src/com/zacharyliu/stepnavigation/CompassHeading.java:56-112 | an attempt happens only when both flags are up after storing the reading; then it behaves as `Attempt`; otherwise there is no call and the buffer, index and azimuth are unchanged |
| StepNavigationService.Recent | src/com/zacharyliu/stepnavigation/StepNavigationService.java:186-189 | the newest n entries of the history, oldest first |
| StepNavigationService.PushEvictsOldest | src/com/zacharyliu/stepnavigation/StepNavigationService.java:186-189 | pushing onto a history that is not full keeps everything; pushing onto a full one drops exactly the oldest entry and keeps the order |
| StepNavigationService.Variance | src/com/zacharyliu/stepnavigation/StepNavigationService.java:146-150 | the sample variance of a full history: squared deviations from the mean, divided by N - 1; never negative |
| StepNavigationService.CalibrationSucceeds | src/com/zacharyliu/stepnavigation/StepNavigationService.java:135-159 | `calibrate` succeeds exactly on a full history whose variance is at most 10^2 |
| StepNavigationService.MeanAndVariance | src/com/zacharyliu/stepnavigation/StepNavigationService.java:141-150 | the two loops of `calibrate` leave the arithmetic mean and the sample variance (divided by N - 1) |
| StepNavigationService.StandardDeviationTest | src/com/zacharyliu/stepnavigation/StepNavigationService.java:150-159 | the variance is within 10^2 exactly when `Math.sqrt(var) <= 10` |
| StepNavigationService.SquaredDeviationsNonNegative | src/com/zacharyliu/stepnavigation/StepNavigationService.java:146-149 | the accumulated squared deviations are never negative |
| StepNavigationService.SquaredDeviationsAtLeastOne | src/com/zacharyliu/stepnavigation/StepNavigationService.java:146-149 | any single deviation term is at most the total |
| StepNavigationService.SquaredDeviationsAtLeastTwo | src/com/zacharyliu/stepnavigation/StepNavigationService.java:146-149 | any two deviation terms together are at most the total |
| StepNavigationService.SquaredDeviationsAtMost | src/com/zacharyliu/stepnavigation/StepNavigationService.java:146-149 | if every term is at most b, the total is at most N*b |
| StepNavigationService.TwoPointSpread | src/com/zacharyliu/stepnavigation/StepNavigationService.java:148 | two points together are at least half their squared distance away from any mean |
| StepNavigationService.WideSpreadFails | src/com/zacharyliu/stepnavigation/StepNavigationService.java:141-159 | two recorded differences more than 43 degrees apart make calibration fail, whatever the other eight are |
| StepNavigationService.NarrowBandCalibrates | src/com/zacharyliu/stepnavigation/StepNavigationService.java:141-164 | ten differences within a 9-degree band always calibrate, and the correction factor lies in that band |
| StepNavigationService.UniformHistoryCalibrates | src/com/zacharyliu/stepnavigation/StepNavigationService.java:141-164 | ten equal differences calibrate with zero variance and that difference as the correction factor |
| StepNavigationService.AlternatingHistoryFails | src/com/zacharyliu/stepnavigation/StepNavigationService.java:141-159 | a history alternating between -90 and +90 never calibrates |
| StepNavigationService.RemoveFirst | src/com/zacharyliu/stepnavigation/StepNavigationService.java:67-70 | `listeners.remove(listener)`: one entry fewer exactly when the listener is registered, and nothing new appears |
| StepNavigationService.RemoveFirstSplices | src/com/zacharyliu/stepnavigation/StepNavigationService.java:69 | removing a listener splices out its first registration and keeps every other listener in order |
| StepNavigationService.RemoveFirstAbsent | src/com/zacharyliu/stepnavigation/StepNavigationService.java:69 | removing a listener that is not registered changes nothing |
| StepNavigationService.RemoveFirstOneOccurrence | src/com/zacharyliu/stepnavigation/StepNavigationService.java:69 | unregistering removes exactly one registration of the listener, or none if it had none |
| StepNavigationService.UnregisterUndoesRegister | src/com/zacharyliu/stepnavigation/StepNavigationService.java:62-70 | registering a new listener and then unregistering it restores the list |
| StepNavigationService.IndexOf | src/com/zacharyliu/stepnavigation/StepNavigationService.java:69 | the index of the first occurrence of the listener, or -1 exactly when it is absent |
| StepNavigationService.Fanout | src/com/zacharyliu/stepnavigation/StepNavigationService.java:246-248 | one delivery per registered listener, in list order, carrying the location's latitude and longitude |
| StepNavigationService.UnregisteredHearsNothing | src/com/zacharyliu/stepnavigation/StepNavigationService.java:244-248 | a listener registered and then unregistered receives no location update |
| StepNavigationService.WrapHeading | src/com/zacharyliu/stepnavigation/StepNavigationService.java:170-174 | at most one shift by 360; a sum in [-360, 720] ends in [0, 360]; [0, 360] is left alone |
| StepNavigationService.Service.constructor | src/com/zacharyliu/stepnavigation/StepNavigationService.java:37-48 | the initial state: uncalibrated, no GPS, empty history, zero headings and factor, no position, no listeners |
| StepNavigationService.Service.Register | src/com/zacharyliu/stepnavigation/StepNavigationService.java:62-65 | the listener is appended |
| StepNavigationService.Service.Unregister | src/com/zacharyliu/stepnavigation/StepNavigationService.java:67-70 | the first registration of the listener is removed, and exactly one registration is gone (none if it had none) |
| StepNavigationService.Service.OnNewLocation | src/com/zacharyliu/stepnavigation/StepNavigationService.java:244-249 | the location becomes current and every registered listener is told once, in order |
| StepNavigationService.Service.OnDirectionUpdate | src/com/zacharyliu/stepnavigation/StepNavigationService.java:168-175 | `realHeading` is `mHeading + correctionFactor`, wrapped once |
| StepNavigationService.Service.OnHeadingUpdate | src/com/zacharyliu/stepnavigation/StepNavigationService.java:77-81 | the compass heading is stored and the corrected heading recomputed; while uncalibrated it tracks the compass heading |
| StepNavigationService.Service.OnBearingUpdate | src/com/zacharyliu/stepnavigation/StepNavigationService.java:85-88 | the GPS bearing is stored and the corrected heading recomputed |
| StepNavigationService.Service.OnLocationUpdate | src/com/zacharyliu/stepnavigation/StepNavigationService.java:91-97 | a fix always sets `gpsReady`; while uncalibrated it becomes the position and is broadcast; once calibrated it changes neither |
| StepNavigationService.Service.Calibrate | src/com/zacharyliu/stepnavigation/StepNavigationService.java:131-165 | succeeds exactly on a full history whose standard deviation is at most 10; then the correction factor is the history's mean, otherwise it is unchanged; the history is not touched |
| StepNavigationService.Service.RecordDifference | src/com/zacharyliu/stepnavigation/StepNavigationService.java:185-189 | the new difference is appended and the oldest entries are evicted until ten remain |
| StepNavigationService.Service.TryCalibrate | src/com/zacharyliu/stepnavigation/StepNavigationService.java:204-210 | on success the service becomes calibrated and `gps.off()` is called once |
| StepNavigationService.Service.CalculateNewLocation | src/com/zacharyliu/stepnavigation/StepNavigationService.java:221-242 | the destination one step along `realHeading` becomes the position and is broadcast |
| StepNavigationService.Service.OnStep | src/com/zacharyliu/stepnavigation/StepNavigationService.java:177-219 | the history grows only with a ready GPS and a non-zero bearing; calibration is tried only while uncalibrated, and `calibrated` never goes back; after it the correction factor is frozen and `gps.off()` has been called exactly once; dead reckoning runs exactly when calibrated with a known position |

`StepNavigationService.Service.Valid` is the invariant every callback keeps:

- the history holds at most ten entries;
- a non-empty history means the GPS was ready;
- `gps.off()` has been called once if the service is calibrated and never otherwise;
- while uncalibrated the correction factor is 0;
- once calibrated, the history is full and the correction factor is the mean
  of a history that passed the standard-deviation test.

## Left out

- Trigonometry (`Math.sin`, `cos`, `atan2`, `asin`) is a parameter: the `Trig` datatype, and the `DeadReckoning` function for the destination-point formula of `calculateNewLocation`. The model does not check that formula's spherical geometry.
- `SensorManager.getRotationMatrix` and `getOrientation` form one parameter, `CompassHeading.Orientation`. It returns the azimuth in radians, or `None` when the rotation matrix cannot be computed.
- `SystemClock.elapsedRealtime()` is an argument of `StepDetector.Detector.OnSensorChanged`. `long` overflow of the clock is not modelled.
- Floating point: `real` is exact, so the model has no rounding, NaN or infinity. `float` readings and `double` arithmetic are the same type, and `Math.pow(x, 2)` is `x * x`.
- AngleMath.Average: an empty array gives `None`, standing for Java's NaN result.
- AngleMath.WeightedAverage: a `weights` array shorter than `angles` is excluded; Java throws after converting `angles` in place.
- AngleMath.WeightedAverage: weights summing to zero give `None`. Java divides by zero and passes infinities or NaN to `atan2`, which can return a finite angle.
- CompassHeading.LastThreeHeadings: states the buffer's average after three writes, not that the buffer holds a permutation of the three values. That fact is stated per index by `CompassHeading.ThreeWrites`.
- Listener objects are identities (`ListenerId`). A call to a listener is recorded as a `Delivery` in the service's `deliveries` field. A listener cannot call back into the service during a delivery, and `ConcurrentModificationException` is not modelled.
- `gps.off()` is counted in `gpsOffCalls`. The Vibrator, Toast, CSV writer and `Log` calls are I/O and are omitted.
- The service lifecycle is platform plumbing and is omitted. That covers `onBind`, `onDestroy`, the binder, sensor `resume`/`pause`, and the GPS bearing sources.
- Concurrency is not modelled: callbacks are taken as strictly sequential, as Android delivers them on the main thread.
- The compass listener's `y`/`z` scratch fields are local variables of `CompassHeading.RemapAxes`, since no other code reads them. The computed `average()` value is discarded by the source and by the model.
- Recalibration is a TODO with no code in the source, so nothing models it.

## Findings

| source | as written | input that shows it | evidently intended | confidence | as-written member | corrected member |
|---|---|---|---|---|---|---|
| src/com/zacharyliu/stepnavigation/AngleMath.java:10 | `(diff + 180) % 360 - 180` with Java's truncating `%` wraps differences only from above | `difference(DEGREES, 10, 350)` gives -340 | the signed shortest turn, -180 to 180, giving 20 | high, not executed | AngleMath.DifferenceBelowRange | AngleMath.ShortestDifference |
