/**
 * Signal synthesiser of static/generate-signal.mjs.
 *
 * Three envelopes drawn on canvases (vibration amplitude, vibration frequency,
 * thermal amplitude), each 150 normalised samples over a total duration of
 * which an active prefix is played, are resampled at 10 kHz.  The vibration
 * channel is a sine whose phase accumulates the instantaneous frequency; the
 * thermal channel is the thermal envelope mapped to degrees.
 *
 * Math.sin is the parameter `sin`; Float32Array narrowing is not modelled.
 */
module GenerateSignal {
  import opened JsMath
  import opened Wrappers

  const SAMPLE_RATE: real := 10000.0
  const MIN_FREQ: real := 50.0
  const MAX_FREQ: real := 500.0
  const MIN_THERMAL: real := -6.0
  const MAX_THERMAL: real := 6.0
  /** Math.PI */
  const PI: real := 3.141592653589793

  // ---------------------------------------------------------------------------
  // Range maps

  /**
   * linear_map: the affine map sending origMin to newMin and origMax to newMax.
   * Values inside the original range land inside the new range.
   */
  function LinearMap(value: real, origMin: real, origMax: real, newMin: real, newMax: real): (r: real)
    requires origMin != origMax
    ensures Between(value, origMin, origMax) ==> Between(r, newMin, newMax)
  {
    var w := (value - origMin) / (origMax - origMin);
    FractionBetween(value, origMin, origMax);
    ConvexCombination(newMin, newMax, w);
    assert newMin + (newMax - newMin) * w == newMin * (1.0 - w) + newMax * w;
    newMin + (newMax - newMin) * w
  }

  /** The position of a value inside [a, b] (or [b, a]) is a fraction in [0, 1]. */
  lemma FractionBetween(value: real, a: real, b: real)
    requires a != b
    ensures Between(value, a, b) ==> 0.0 <= (value - a) / (b - a) <= 1.0
  {
    if Between(value, a, b) {
      if a < b {
        UnitFraction(value - a, b - a);
      } else {
        UnitFraction(a - value, a - b);
        assert (value - a) / (b - a) == (a - value) / (a - b);
      }
    }
  }

  /** a·(1 − w) + b·w lies between a and b for a weight w in [0, 1]. */
  lemma ConvexCombination(a: real, b: real, w: real)
    ensures 0.0 <= w <= 1.0 ==> Between(a * (1.0 - w) + b * w, a, b)
  {
    if 0.0 <= w <= 1.0 {
      assert a * (1.0 - w) + b * w == a + w * (b - a);
      if a <= b {
        MulNonNeg(w, b - a);
        MulNonNeg(1.0 - w, b - a);
      } else {
        MulNonNeg(w, a - b);
        MulNonNeg(1.0 - w, a - b);
      }
    }
  }

  /** linear_map sends the ends of the original range to the ends of the new one. */
  lemma LinearMapEndpoints(origMin: real, origMax: real, newMin: real, newMax: real)
    requires origMin != origMax
    ensures LinearMap(origMin, origMin, origMax, newMin, newMax) == newMin
    ensures LinearMap(origMax, origMin, origMax, newMin, newMax) == newMax
  {
    assert (origMax - origMin) / (origMax - origMin) == 1.0;
  }

  /** linear_map is affine: differences scale by (newMax − newMin)/(origMax − origMin). */
  lemma LinearMapAffine(v: real, w: real, origMin: real, origMax: real, newMin: real, newMax: real)
    requires origMin != origMax
    ensures LinearMap(v, origMin, origMax, newMin, newMax) - LinearMap(w, origMin, origMax, newMin, newMax)
         == (newMax - newMin) / (origMax - origMin) * (v - w)
  {
    var k := origMax - origMin;
    var d := newMax - newMin;
    assert LinearMap(v, origMin, origMax, newMin, newMax) - LinearMap(w, origMin, origMax, newMin, newMax)
        == d * ((v - origMin) / k) - d * ((w - origMin) / k);
    ScaledDifference(d, v - origMin, w - origMin, k);
  }

  /** d·(x/k) − d·(y/k) = d/k·(x − y) */
  lemma ScaledDifference(d: real, x: real, y: real, k: real)
    requires k != 0.0
    ensures d * (x / k) - d * (y / k) == d / k * (x - y)
  {
    assert x / k - y / k == (x - y) / k;
  }

  /** Mapping from one range to another and back is the identity. */
  lemma LinearMapRoundTrip(v: real, origMin: real, origMax: real, newMin: real, newMax: real)
    requires origMin != origMax && newMin != newMax
    ensures LinearMap(LinearMap(v, origMin, origMax, newMin, newMax), newMin, newMax, origMin, origMax) == v
  {
    var k := origMax - origMin;
    var d := newMax - newMin;
    var w := (v - origMin) / k;
    var m := LinearMap(v, origMin, origMax, newMin, newMax);
    assert m - newMin == d * w;
    MulDivCancel(w, d);
    assert origMin + k * w == v;
  }

  /** map_frequency: [minValue, maxValue] onto [MIN_FREQ, MAX_FREQ]. */
  function MapFrequency(value: real, minValue: real, maxValue: real): (r: real)
    requires minValue != maxValue
    ensures Between(value, minValue, maxValue) ==> MIN_FREQ <= r <= MAX_FREQ
  {
    LinearMap(value, minValue, maxValue, MIN_FREQ, MAX_FREQ)
  }

  /** map_thermal: [minValue, maxValue] onto [MIN_THERMAL, MAX_THERMAL]. */
  function MapThermal(value: real, minValue: real, maxValue: real): (r: real)
    requires minValue != maxValue
    ensures Between(value, minValue, maxValue) ==> MIN_THERMAL <= r <= MAX_THERMAL
  {
    LinearMap(value, minValue, maxValue, MIN_THERMAL, MAX_THERMAL)
  }

  /** inv_map_thermal: [MIN_THERMAL, MAX_THERMAL] back onto [minValue, maxValue]. */
  function InvMapThermal(value: real, minValue: real, maxValue: real): (r: real)
    ensures MIN_THERMAL <= value <= MAX_THERMAL ==> Between(r, minValue, maxValue)
  {
    LinearMap(value, MIN_THERMAL, MAX_THERMAL, minValue, maxValue)
  }

  /**
   * On the normalised range the two thermal maps are inverse to each other,
   * and map_thermal sends 0 to −6 and 1 to 6.
   */
  lemma ThermalMapsInverse(v: real, degrees: real)
    ensures InvMapThermal(MapThermal(v, 0.0, 1.0), 0.0, 1.0) == v
    ensures MapThermal(InvMapThermal(degrees, 0.0, 1.0), 0.0, 1.0) == degrees
    ensures MapThermal(0.0, 0.0, 1.0) == MIN_THERMAL && MapThermal(1.0, 0.0, 1.0) == MAX_THERMAL
  {
    LinearMapRoundTrip(v, 0.0, 1.0, MIN_THERMAL, MAX_THERMAL);
    LinearMapRoundTrip(degrees, MIN_THERMAL, MAX_THERMAL, 0.0, 1.0);
  }

  /** On the normalised range the thermal maps are v ↦ 12v − 6 and d ↦ (d + 6)/12. */
  lemma ThermalMapsClosedForm(v: real, degrees: real)
    ensures MapThermal(v, 0.0, 1.0) == 12.0 * v - 6.0
    ensures InvMapThermal(degrees, 0.0, 1.0) == (degrees + 6.0) / 12.0
  {
  }

  // ---------------------------------------------------------------------------
  // Fractional-index interpolation

  /** The two neighbouring indices read by linterp_index: floor and ceil of perc·(n − 1). */
  function InterpIndices(n: nat, perc: real): (r: (int, int))
    requires 0 < n && 0.0 <= perc <= 1.0
    ensures 0 <= r.0 <= r.1 < n && r.1 - r.0 <= 1
  {
    var index := perc * (n - 1) as real;
    assert index <= (n - 1) as real by {
      MulNonNeg(1.0 - perc, (n - 1) as real);
    }
    MulNonNeg(perc, (n - 1) as real);
    (index.Floor, Ceil(index))
  }

  /**
   * linterp_index: the value at fractional position perc·(n − 1), linearly
   * interpolated between its two neighbours; it lies between them.
   */
  function LinterpIndex(arr: seq<real>, perc: real): (r: real)
    requires 0 < |arr| && 0.0 <= perc <= 1.0
    ensures var (lower, upper) := InterpIndices(|arr|, perc);
            Between(r, arr[lower], arr[upper])
  {
    var index := perc * (|arr| - 1) as real;
    var (lower, upper) := InterpIndices(|arr|, perc);
    var weight := index - lower as real;
    ConvexCombination(arr[lower], arr[upper], weight);
    arr[lower] * (1.0 - weight) + arr[upper] * weight
  }

  /** At an integral position k = perc·(n − 1) the interpolation returns arr[k] exactly. */
  lemma LinterpAtIntegralIndex(arr: seq<real>, perc: real, k: int)
    requires 0 < |arr| && 0.0 <= perc <= 1.0
    requires perc * (|arr| - 1) as real == k as real
    ensures 0 <= k < |arr| && LinterpIndex(arr, perc) == arr[k]
  {
    var (lower, upper) := InterpIndices(|arr|, perc);
    assert lower == k && upper == k;
  }

  /** The interpolation starts at the first sample and ends at the last one. */
  lemma LinterpEnds(arr: seq<real>)
    requires 0 < |arr|
    ensures LinterpIndex(arr, 0.0) == arr[0]
    ensures LinterpIndex(arr, 1.0) == arr[|arr| - 1]
  {
    LinterpAtIntegralIndex(arr, 0.0, 0);
    LinterpAtIntegralIndex(arr, 1.0, |arr| - 1);
  }

  /** An envelope holding one value everywhere interpolates to that value at every position. */
  lemma LinterpConstant(arr: seq<real>, perc: real, v: real)
    requires 0 < |arr| && 0.0 <= perc <= 1.0
    requires forall i :: 0 <= i < |arr| ==> arr[i] == v
    ensures LinterpIndex(arr, perc) == v
  {
    var (lower, upper) := InterpIndices(|arr|, perc);
    assert arr[lower] == v && arr[upper] == v;
  }

  /** Samples all within [lo, hi] interpolate to a value within [lo, hi]. */
  lemma LinterpWithin(arr: seq<real>, perc: real, lo: real, hi: real)
    requires 0 < |arr| && 0.0 <= perc <= 1.0
    requires forall i :: 0 <= i < |arr| ==> lo <= arr[i] <= hi
    ensures lo <= LinterpIndex(arr, perc) <= hi
  {
    var (lower, upper) := InterpIndices(|arr|, perc);
    assert lo <= arr[lower] <= hi && lo <= arr[upper] <= hi;
  }

  // ---------------------------------------------------------------------------
  // generate_signal

  /** What generate_signal reads from one draw canvas. */
  datatype Envelope = Envelope(
    samples: seq<real>,        // get_samples(): the slope-limited output
    inputSamples: seq<real>,   // get_input_samples(): the drawn samples
    totalDuration: real,
    activeDuration: real)

  datatype Signal = Signal(vibSignal: seq<real>, thermalSignal: seq<real>, duration: real)

  datatype SignalError =
    | TotalDurationMismatch    // "All cavnases must have the same total duration"
    | ActiveDurationMismatch   // "All cavnases must have the same active duration"
    | InvalidLength            // new Float32Array of a negative length throws RangeError

  /** The position lperc = (i / n)·activePerc of output sample i within the envelope. */
  function LPerc(i: nat, n: nat, activePerc: real): (r: real)
    requires i < n && 0.0 <= activePerc
    ensures 0.0 <= r <= activePerc && (0.0 < activePerc ==> r < activePerc)
  {
    var perc := i as real / n as real;
    IndexFraction(i, n);
    FractionScaled(perc, activePerc);
    perc * activePerc
  }

  lemma FractionScaled(perc: real, x: real)
    requires 0.0 <= perc < 1.0 && 0.0 <= x
    ensures 0.0 <= perc * x <= x && (0.0 < x ==> perc * x < x)
  {
    MulNonNeg(perc, x);
    MulNonNeg(1.0 - perc, x);
    if 0.0 < x {
      MulPos(1.0 - perc, x);
    }
  }

  /** The phase advance of one output sample at envelope position lperc. */
  function PhaseDelta(vibFreq: seq<real>, lperc: real): real
    requires 0 < |vibFreq| && 0.0 <= lperc <= 1.0
  {
    2.0 * PI * MapFrequency(LinterpIndex(vibFreq, lperc), 0.0, 1.0) / SAMPLE_RATE
  }

  /** phase_acc after k samples: the sum of the first k phase advances. */
  function PhaseAfter(vibFreq: seq<real>, n: nat, activePerc: real, k: nat): real
    requires 0 < |vibFreq| && k <= n && 0.0 <= activePerc <= 1.0
  {
    if k == 0 then 0.0
    else PhaseAfter(vibFreq, n, activePerc, k - 1) + PhaseDelta(vibFreq, LPerc(k - 1, n, activePerc))
  }

  /**
   * With a constant frequency envelope v the phase grows linearly: after k
   * samples it is k advances of 2π·map_frequency(v)/SAMPLE_RATE.
   */
  lemma ConstantFrequencyPhase(vibFreq: seq<real>, n: nat, activePerc: real, k: nat, v: real)
    requires 0 < |vibFreq| && k <= n && 0.0 <= activePerc <= 1.0
    requires forall j :: 0 <= j < |vibFreq| ==> vibFreq[j] == v
    ensures PhaseAfter(vibFreq, n, activePerc, k) == k as real * (2.0 * PI * MapFrequency(v, 0.0, 1.0) / SAMPLE_RATE)
  {
    var f := MapFrequency(v, 0.0, 1.0);
    ConstantFrequencies(vibFreq, n, activePerc, k, v);
    EqualFrequenciesPhase(vibFreq, n, activePerc, k, f);
    RepeatedStep(k, 2.0 * PI * f / SAMPLE_RATE);
  }

  /** On a constant frequency envelope v every sample has frequency map_frequency(v). */
  lemma ConstantFrequencies(vibFreq: seq<real>, n: nat, activePerc: real, k: nat, v: real)
    requires 0 < |vibFreq| && k <= n && 0.0 <= activePerc <= 1.0
    requires forall j :: 0 <= j < |vibFreq| ==> vibFreq[j] == v
    ensures forall j :: 0 <= j < k ==> MapFrequency(LinterpIndex(vibFreq, LPerc(j, n, activePerc)), 0.0, 1.0) == MapFrequency(v, 0.0, 1.0)
  {
    forall j | 0 <= j < k
      ensures MapFrequency(LinterpIndex(vibFreq, LPerc(j, n, activePerc)), 0.0, 1.0) == MapFrequency(v, 0.0, 1.0)
    {
      LinterpConstant(vibFreq, LPerc(j, n, activePerc), v);
    }
  }

  /** step added to itself k times, starting from 0. */
  function Repeated(k: nat, step: real): real
  {
    if k == 0 then 0.0 else Repeated(k - 1, step) + step
  }

  /** Adding step k times gives k·step. */
  lemma {:induction false} RepeatedStep(k: nat, step: real)
    ensures Repeated(k, step) == k as real * step
  {
    if k > 0 {
      RepeatedStep(k - 1, step);
      assert (k - 1) as real * step + step == k as real * step;
    }
  }

  /** k samples that all have frequency f advance the phase by 2π·f/SAMPLE_RATE, k times. */
  lemma {:induction false} EqualFrequenciesPhase(vibFreq: seq<real>, n: nat, activePerc: real, k: nat, f: real)
    requires 0 < |vibFreq| && k <= n && 0.0 <= activePerc <= 1.0
    requires forall j :: 0 <= j < k ==> MapFrequency(LinterpIndex(vibFreq, LPerc(j, n, activePerc)), 0.0, 1.0) == f
    ensures PhaseAfter(vibFreq, n, activePerc, k) == Repeated(k, 2.0 * PI * f / SAMPLE_RATE)
  {
    if k > 0 {
      EqualFrequenciesPhase(vibFreq, n, activePerc, k - 1, f);
    }
  }

  /** Output sample i of the vibration channel. */
  function VibSample(vibAmp: seq<real>, vibFreq: seq<real>, sin: real -> real, n: nat, activePerc: real, i: nat): real
    requires 0 < |vibAmp| && 0 < |vibFreq| && i < n && 0.0 <= activePerc <= 1.0
  {
    Modulate(LinterpIndex(vibAmp, LPerc(i, n, activePerc)), sin, PhaseAfter(vibFreq, n, activePerc, i + 1))
  }

  /** s_amp * Math.sin(phase_acc): the carrier at the given phase scaled by the amplitude. */
  function Modulate(amp: real, sin: real -> real, phase: real): real
  {
    amp * sin(phase)
  }

  /** Output sample i of the thermal channel, in degrees. */
  function ThermalSample(thrAmp: seq<real>, n: nat, activePerc: real, i: nat): real
    requires 0 < |thrAmp| && i < n && 0.0 <= activePerc <= 1.0
  {
    MapThermal(LinterpIndex(thrAmp, LPerc(i, n, activePerc)), 0.0, 1.0)
  }

  /** The number of output samples, Math.floor(activeDuration · SAMPLE_RATE). */
  function OutputLength(activeDuration: real): int
  {
    (activeDuration * SAMPLE_RATE).Floor
  }

  /** The duration generate_signal synthesises. */
  function ActiveDuration(vibAmp: Envelope, forceFullDuration: bool): real
  {
    if forceFullDuration then vibAmp.totalDuration else vibAmp.activeDuration
  }

  /** A negative duration, and only a negative one, gives a negative sample count. */
  lemma OutputLengthSign(duration: real)
    ensures 0 <= OutputLength(duration) <==> 0.0 <= duration
  {
    if duration < 0.0 {
      assert duration * SAMPLE_RATE < 0.0;
    } else {
      MulNonNeg(duration, SAMPLE_RATE);
    }
  }

  /**
   * The exception generate_signal throws for the three canvases' durations,
   * in the order it checks them, or None when it returns a signal.
   */
  function DurationError(vibAmpTotal: real, vibFreqTotal: real, thrAmpTotal: real,
                         vibAmpActive: real, vibFreqActive: real, thrAmpActive: real,
                         forceFullDuration: bool): Option<SignalError>
  {
    if vibAmpTotal != vibFreqTotal || vibAmpTotal != thrAmpTotal then Some(TotalDurationMismatch)
    else if vibAmpActive != vibFreqActive || vibAmpActive != thrAmpActive then Some(ActiveDurationMismatch)
    else if OutputLength(if forceFullDuration then vibAmpTotal else vibAmpActive) < 0 then Some(InvalidLength)
    else None
  }

  /** Canvases that share one total and active duration d fail exactly when d is negative. */
  lemma SharedDurationError(d: real, forceFullDuration: bool)
    ensures DurationError(d, d, d, d, d, d, forceFullDuration) == (if d < 0.0 then Some(InvalidLength) else None)
  {
    OutputLengthSign(d);
  }

  /**
   * generate_signal: checks that the three envelopes agree on their total
   * and active durations, then samples the active part (or everything when
   * forceFullDuration) at SAMPLE_RATE.
   */
  method GenerateSignal(vibAmp: Envelope, vibFreq: Envelope, thrAmp: Envelope, forceFullDuration: bool, sin: real -> real)
    returns (r: Result<Signal, SignalError>)
    requires 0 < |vibAmp.samples| && 0 < |vibFreq.samples| && 0 < |thrAmp.inputSamples|
    requires forceFullDuration || vibAmp.activeDuration <= vibAmp.totalDuration
    ensures r == Err(TotalDurationMismatch) <==>
      vibAmp.totalDuration != vibFreq.totalDuration || vibAmp.totalDuration != thrAmp.totalDuration
    ensures r == Err(ActiveDurationMismatch) <==>
      && vibAmp.totalDuration == vibFreq.totalDuration == thrAmp.totalDuration
      && (vibAmp.activeDuration != vibFreq.activeDuration || vibAmp.activeDuration != thrAmp.activeDuration)
    ensures r == Err(InvalidLength) <==>
      && vibAmp.totalDuration == vibFreq.totalDuration == thrAmp.totalDuration
      && vibAmp.activeDuration == vibFreq.activeDuration == thrAmp.activeDuration
      && OutputLength(ActiveDuration(vibAmp, forceFullDuration)) < 0
    ensures r.Err? <==>
      DurationError(vibAmp.totalDuration, vibFreq.totalDuration, thrAmp.totalDuration,
                    vibAmp.activeDuration, vibFreq.activeDuration, thrAmp.activeDuration, forceFullDuration).Some?
    ensures r.Ok? ==>
      var active := ActiveDuration(vibAmp, forceFullDuration);
      var n := OutputLength(active);
      && 0 <= n
      && r.value.duration == active
      && |r.value.vibSignal| == n && |r.value.thermalSignal| == n
      && (0 < n ==>
            && 0.0 < vibAmp.totalDuration
            && var activePerc := active / vibAmp.totalDuration;
            && 0.0 <= activePerc <= 1.0
            && (forall i :: 0 <= i < n ==>
                  r.value.vibSignal[i] == VibSample(vibAmp.samples, vibFreq.samples, sin, n, activePerc, i))
            && (forall i :: 0 <= i < n ==>
                  r.value.thermalSignal[i] == ThermalSample(thrAmp.inputSamples, n, activePerc, i)))
  {
    var currentTotalDuration := vibAmp.totalDuration;
    if currentTotalDuration != vibFreq.totalDuration || currentTotalDuration != thrAmp.totalDuration {
      return Err(TotalDurationMismatch);
    }
    var currentActiveDuration := vibAmp.activeDuration;
    if currentActiveDuration != vibFreq.activeDuration || currentActiveDuration != thrAmp.activeDuration {
      return Err(ActiveDurationMismatch);
    }
    var activeDuration := if forceFullDuration then currentTotalDuration else currentActiveDuration;
    var numOutputSamples := (activeDuration * SAMPLE_RATE).Floor;
    if numOutputSamples < 0 {
      return Err(InvalidLength);
    }
    if numOutputSamples == 0 {
      // Both loops are empty; the active fraction (0/0 for a zero total) is never used.
      return Ok(Signal([], [], activeDuration));
    }
    OutputLengthSign(activeDuration);
    assert 0.0 < activeDuration;
    var activePerc := activeDuration / currentTotalDuration;
    UnitFraction(activeDuration, currentTotalDuration);

    var vibSignal := VibrationChannel(vibAmp.samples, vibFreq.samples, sin, numOutputSamples, activePerc);
    var thermalSignal := ThermalChannel(thrAmp.inputSamples, numOutputSamples, activePerc);
    return Ok(Signal(vibSignal, thermalSignal, activeDuration));
  }

  /** The first loop of generate_signal: the phase-accumulating sine. */
  method VibrationChannel(vibAmp: seq<real>, vibFreq: seq<real>, sin: real -> real, numOutputSamples: nat, activePerc: real)
    returns (signal: seq<real>)
    requires 0 < |vibAmp| && 0 < |vibFreq| && 0.0 <= activePerc <= 1.0
    ensures |signal| == numOutputSamples
    ensures forall i :: 0 <= i < numOutputSamples ==>
      signal[i] == VibSample(vibAmp, vibFreq, sin, numOutputSamples, activePerc, i)
  {
    signal := [];
    var phaseAcc := 0.0;
    var i := 0;
    while i < numOutputSamples
      invariant 0 <= i <= numOutputSamples && |signal| == i
      invariant phaseAcc == PhaseAfter(vibFreq, numOutputSamples, activePerc, i)
      invariant forall k :: 0 <= k < i ==>
        signal[k] == VibSample(vibAmp, vibFreq, sin, numOutputSamples, activePerc, k)
    {
      var lperc := LPerc(i, numOutputSamples, activePerc);
      var sFreq := LinterpIndex(vibFreq, lperc);
      var sAmp := LinterpIndex(vibAmp, lperc);
      var currentFreq := MapFrequency(sFreq, 0.0, 1.0);
      var phaseDelta := 2.0 * PI * currentFreq / SAMPLE_RATE;
      VibStep(vibAmp, vibFreq, sin, numOutputSamples, activePerc, i, phaseAcc);
      phaseAcc := phaseAcc + phaseDelta;
      signal := signal + [Modulate(sAmp, sin, phaseAcc)];
      i := i + 1;
    }
  }

  /** One iteration of the vibration loop advances the phase and emits VibSample. */
  lemma VibStep(vibAmp: seq<real>, vibFreq: seq<real>, sin: real -> real, n: nat, activePerc: real, i: nat, phase: real)
    requires 0 < |vibAmp| && 0 < |vibFreq| && i < n && 0.0 <= activePerc <= 1.0
    requires phase == PhaseAfter(vibFreq, n, activePerc, i)
    ensures var lperc := LPerc(i, n, activePerc);
            var next := phase + 2.0 * PI * MapFrequency(LinterpIndex(vibFreq, lperc), 0.0, 1.0) / SAMPLE_RATE;
            && next == PhaseAfter(vibFreq, n, activePerc, i + 1)
            && Modulate(LinterpIndex(vibAmp, lperc), sin, next) == VibSample(vibAmp, vibFreq, sin, n, activePerc, i)
  {
  }

  /** The second loop of generate_signal: the thermal envelope in degrees. */
  method ThermalChannel(thrAmp: seq<real>, numOutputSamples: nat, activePerc: real) returns (signal: seq<real>)
    requires 0 < |thrAmp| && 0.0 <= activePerc <= 1.0
    ensures |signal| == numOutputSamples
    ensures forall i :: 0 <= i < numOutputSamples ==>
      signal[i] == ThermalSample(thrAmp, numOutputSamples, activePerc, i)
  {
    var thermalSignal := new real[numOutputSamples];
    var i := 0;
    while i < numOutputSamples
      invariant 0 <= i <= numOutputSamples
      invariant forall k :: 0 <= k < i ==>
        thermalSignal[k] == ThermalSample(thrAmp, numOutputSamples, activePerc, k)
    {
      var lperc := LPerc(i, numOutputSamples, activePerc);
      var sAmp := LinterpIndex(thrAmp, lperc);
      thermalSignal[i] := MapThermal(sAmp, 0.0, 1.0);
      i := i + 1;
    }
    signal := thermalSignal[..];
  }

  /**
   * With frequency samples in [0, 1] every phase advance is 2π·f/SAMPLE_RATE
   * for some f in [MIN_FREQ, MAX_FREQ], so the accumulated phase strictly
   * increases and is at least k times the smallest advance.
   */
  lemma PhaseIncreases(vibFreq: seq<real>, n: nat, activePerc: real, k: nat)
    requires 0 < |vibFreq| && k < n && 0.0 <= activePerc <= 1.0
    requires forall j :: 0 <= j < |vibFreq| ==> 0.0 <= vibFreq[j] <= 1.0
    ensures PhaseAfter(vibFreq, n, activePerc, k) < PhaseAfter(vibFreq, n, activePerc, k + 1)
  {
    PhaseDeltaBounds(vibFreq, LPerc(k, n, activePerc));
  }

  /** The phase accumulator is strictly increasing over the whole signal. */
  lemma {:induction false} PhaseStrictlyMonotone(vibFreq: seq<real>, n: nat, activePerc: real, j: nat, k: nat)
    requires 0 < |vibFreq| && j < k <= n && 0.0 <= activePerc <= 1.0
    requires forall i :: 0 <= i < |vibFreq| ==> 0.0 <= vibFreq[i] <= 1.0
    ensures PhaseAfter(vibFreq, n, activePerc, j) < PhaseAfter(vibFreq, n, activePerc, k)
  {
    PhaseIncreases(vibFreq, n, activePerc, k - 1);
    if j < k - 1 {
      PhaseStrictlyMonotone(vibFreq, n, activePerc, j, k - 1);
    }
  }

  /** Each phase advance corresponds to a frequency in [MIN_FREQ, MAX_FREQ]. */
  lemma PhaseDeltaBounds(vibFreq: seq<real>, lperc: real)
    requires 0 < |vibFreq| && 0.0 <= lperc <= 1.0
    requires forall j :: 0 <= j < |vibFreq| ==> 0.0 <= vibFreq[j] <= 1.0
    ensures 2.0 * PI * MIN_FREQ / SAMPLE_RATE <= PhaseDelta(vibFreq, lperc) <= 2.0 * PI * MAX_FREQ / SAMPLE_RATE
  {
    LinterpWithin(vibFreq, lperc, 0.0, 1.0);
  }

  /** With thermal samples in [0, 1] the thermal channel stays within [MIN_THERMAL, MAX_THERMAL]. */
  lemma ThermalSampleInRange(thrAmp: seq<real>, n: nat, activePerc: real, i: nat)
    requires 0 < |thrAmp| && i < n && 0.0 <= activePerc <= 1.0
    requires forall j :: 0 <= j < |thrAmp| ==> 0.0 <= thrAmp[j] <= 1.0
    ensures MIN_THERMAL <= ThermalSample(thrAmp, n, activePerc, i) <= MAX_THERMAL
  {
    LinterpWithin(thrAmp, LPerc(i, n, activePerc), 0.0, 1.0);
  }

  /**
   * The vibration amplitude never exceeds the largest drawn amplitude, for a
   * sine bounded by 1.
   */
  lemma VibSampleBounded(vibAmp: seq<real>, vibFreq: seq<real>, sin: real -> real, n: nat, activePerc: real, i: nat)
    requires 0 < |vibAmp| && 0 < |vibFreq| && i < n && 0.0 <= activePerc <= 1.0
    requires forall j :: 0 <= j < |vibAmp| ==> 0.0 <= vibAmp[j] <= 1.0
    requires forall x :: -1.0 <= sin(x) <= 1.0
    ensures -1.0 <= VibSample(vibAmp, vibFreq, sin, n, activePerc, i) <= 1.0
  {
    var a := LinterpIndex(vibAmp, LPerc(i, n, activePerc));
    LinterpWithin(vibAmp, LPerc(i, n, activePerc), 0.0, 1.0);
    var s := sin(PhaseAfter(vibFreq, n, activePerc, i + 1));
    if 0.0 <= s {
      MulNonNeg(a, s);
      MulNonNeg(a, 1.0 - s);
      MulNonNeg(1.0 - a, s);
    } else {
      MulNonNeg(a, -s);
      MulNonNeg(a, 1.0 + s);
      MulNonNeg(1.0 - a, -s);
    }
  }
}
