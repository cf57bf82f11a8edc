/**
 * The Python twin of the vibration synthesiser, play_signal/generate_signal.py.
 *
 * It samples the vibration envelopes at 10 kHz over the requested duration,
 * accumulates the phase of the instantaneous frequency and scales each
 * sample by the calibration coefficient of that frequency.  The coefficient
 * table (451 values, one per whole frequency from 50 to 500 Hz) is a
 * parameter, and so is np.sin.
 */
module PyGenerateSignal {
  import opened JsMath
  import opened Wrappers
  import BrowserSignal = GenerateSignal

  const SAMPLE_RATE: real := 10000.0
  const MIN_FREQ: int := 50
  const MAX_FREQ: int := 500
  /** len(Coeffs) == MAX_FREQ − MIN_FREQ + 1, as the module asserts on load. */
  const COEFF_COUNT: nat := 451
  const PI: real := 3.141592653589793

  /**
   * map_frequency with logscale=False: [minValue, maxValue] onto [50, 500].
   * It is the same affine map as the browser's map_frequency.
   */
  function MapFrequency(value: real, minValue: real, maxValue: real): (r: real)
    requires minValue != maxValue
    ensures r == BrowserSignal.MapFrequency(value, minValue, maxValue)
    ensures Between(value, minValue, maxValue) ==> 50.0 <= r <= 500.0
    ensures value == minValue ==> r == 50.0
    ensures value == maxValue ==> r == 500.0
  {
    BrowserSignal.LinearMapEndpoints(minValue, maxValue, 50.0, 500.0);
    MIN_FREQ as real + (MAX_FREQ - MIN_FREQ) as real * ((value - minValue) / (maxValue - minValue))
  }

  /**
   * linterp_index: arr[lower]·(1 − weight) + arr[upper]·weight at index
   * perc·(len − 1), the same formula as the browser's linterp_index.
   */
  function LinterpIndex(arr: seq<real>, perc: real): real
    requires 0 < |arr| && 0.0 <= perc <= 1.0
  {
    BrowserSignal.LinterpIndex(arr, perc)
  }

  /** The Python interpolation reads valid neighbours and stays between their values. */
  lemma LinterpBetweenNeighbours(arr: seq<real>, perc: real)
    requires 0 < |arr| && 0.0 <= perc <= 1.0
    ensures var (lower, upper) := BrowserSignal.InterpIndices(|arr|, perc);
            0 <= lower <= upper < |arr| && Between(LinterpIndex(arr, perc), arr[lower], arr[upper])
  {
  }

  /** Coeffs[int(f) − MIN_FREQ]: the index is valid for every f in [50, 500]. */
  function CoeffIndex(freq: real): (r: int)
    ensures 50.0 <= freq <= 500.0 ==> 0 <= r < COEFF_COUNT
  {
    Trunc(freq) - MIN_FREQ
  }

  datatype SignalError =
    | DurationTooLong   // ValueError("duration must be <= … seconds")
    | NegativeLength    // np.zeros of a negative length raises ValueError

  /** perc = i / total_samples */
  function Perc(i: nat, totalSamples: nat): (r: real)
    requires i < totalSamples
    ensures 0.0 <= r < 1.0
  {
    IndexFraction(i, totalSamples);
    i as real / totalSamples as real
  }

  /** current_freq of output sample i. */
  function FreqAt(vibFreq: seq<real>, totalSamples: nat, i: nat): real
    requires 0 < |vibFreq| && i < totalSamples
  {
    MapFrequency(LinterpIndex(vibFreq, Perc(i, totalSamples)), 0.0, 1.0)
  }

  /** phase_acc after k samples: the sum of the first k phase deltas 2π·f/SAMPLE_RATE. */
  function PhaseAfter(vibFreq: seq<real>, totalSamples: nat, k: nat): real
    requires 0 < |vibFreq| && k <= totalSamples
  {
    if k == 0 then 0.0
    else PhaseAfter(vibFreq, totalSamples, k - 1) + 2.0 * PI * FreqAt(vibFreq, totalSamples, k - 1) / SAMPLE_RATE
  }

  /**
   * With a constant frequency envelope v the phase grows linearly: after k
   * samples it is k advances of 2π·map_frequency(v)/SAMPLE_RATE.
   */
  lemma ConstantFrequencyPhase(vibFreq: seq<real>, totalSamples: nat, k: nat, v: real)
    requires 0 < |vibFreq| && k <= totalSamples
    requires forall j :: 0 <= j < |vibFreq| ==> vibFreq[j] == v
    ensures PhaseAfter(vibFreq, totalSamples, k) == k as real * (2.0 * PI * MapFrequency(v, 0.0, 1.0) / SAMPLE_RATE)
  {
    var f := MapFrequency(v, 0.0, 1.0);
    forall j | 0 <= j < k
      ensures FreqAt(vibFreq, totalSamples, j) == f
    {
      BrowserSignal.LinterpConstant(vibFreq, Perc(j, totalSamples), v);
    }
    EqualFrequenciesPhase(vibFreq, totalSamples, k, f);
    BrowserSignal.RepeatedStep(k, 2.0 * PI * f / SAMPLE_RATE);
  }

  /** k samples that all have frequency f advance the phase by 2π·f/SAMPLE_RATE, k times. */
  lemma {:induction false} EqualFrequenciesPhase(vibFreq: seq<real>, totalSamples: nat, k: nat, f: real)
    requires 0 < |vibFreq| && k <= totalSamples
    requires forall j :: 0 <= j < k ==> FreqAt(vibFreq, totalSamples, j) == f
    ensures PhaseAfter(vibFreq, totalSamples, k) == BrowserSignal.Repeated(k, 2.0 * PI * f / SAMPLE_RATE)
  {
    if k > 0 {
      EqualFrequenciesPhase(vibFreq, totalSamples, k - 1, f);
    }
  }

  /** s_amp · np.sin(phase_acc) · coefficient */
  function Modulate(amp: real, sin: real -> real, phase: real, coefficient: real): real
  {
    amp * sin(phase) * coefficient
  }

  /** Output sample i: s_amp · sin(phase_acc) · Coeffs[int(current_freq) − MIN_FREQ]. */
  function Sample(vibAmp: seq<real>, vibFreq: seq<real>, coeffs: seq<real>, sin: real -> real, totalSamples: nat, i: nat): real
    requires 0 < |vibAmp| && 0 < |vibFreq| && |coeffs| == COEFF_COUNT && i < totalSamples
    requires forall k :: 0 <= k < |vibFreq| ==> 0.0 <= vibFreq[k] <= 1.0
  {
    FreqInRange(vibFreq, totalSamples, i);
    Modulate(LinterpIndex(vibAmp, Perc(i, totalSamples)), sin, PhaseAfter(vibFreq, totalSamples, i + 1),
             coeffs[CoeffIndex(FreqAt(vibFreq, totalSamples, i))])
  }

  /** With frequency samples in [0, 1] every instantaneous frequency is in [50, 500]. */
  lemma FreqInRange(vibFreq: seq<real>, totalSamples: nat, i: nat)
    requires 0 < |vibFreq| && i < totalSamples
    requires forall k :: 0 <= k < |vibFreq| ==> 0.0 <= vibFreq[k] <= 1.0
    ensures 50.0 <= FreqAt(vibFreq, totalSamples, i) <= 500.0
    ensures 0 <= CoeffIndex(FreqAt(vibFreq, totalSamples, i)) < COEFF_COUNT
  {
    var perc := Perc(i, totalSamples);
    BrowserSignal.LinterpWithin(vibFreq, perc, 0.0, 1.0);
  }

  /** The duration generate_signal uses: the total when none is given. */
  function EffectiveDuration(totalDurationSec: real, duration: Option<real>): real
  {
    if duration.None? then totalDurationSec else duration.value
  }

  /** A duration no longer than the total yields no more output samples than total_samples. */
  lemma OutputFitsTotal(duration: real, totalDurationSec: real)
    requires duration <= totalDurationSec && 0 < Trunc(duration * SAMPLE_RATE)
    ensures Trunc(duration * SAMPLE_RATE) <= Trunc(totalDurationSec * SAMPLE_RATE)
  {
  }

  /**
   * generate_signal: refuses a duration beyond the total, then returns
   * int(duration · SAMPLE_RATE) samples together with the duration used.
   */
  method GenerateSignal(vibAmp: seq<real>, vibFreq: seq<real>, totalDurationSec: real, duration: Option<real>,
                        coeffs: seq<real>, sin: real -> real)
    returns (r: Result<(seq<real>, real), SignalError>)
    requires 0 < |vibAmp| && 0 < |vibFreq| && |coeffs| == COEFF_COUNT
    requires forall k :: 0 <= k < |vibFreq| ==> 0.0 <= vibFreq[k] <= 1.0
    ensures r == Err(DurationTooLong) <==> duration.Some? && duration.value > totalDurationSec
    ensures r == Err(NegativeLength) <==>
      !(duration.Some? && duration.value > totalDurationSec)
      && Trunc(EffectiveDuration(totalDurationSec, duration) * SAMPLE_RATE) < 0
    ensures r.Ok? ==>
      var d := EffectiveDuration(totalDurationSec, duration);
      var n := Trunc(d * SAMPLE_RATE);
      var totalSamples := Trunc(totalDurationSec * SAMPLE_RATE);
      && r.value.1 == d && |r.value.0| == n && n <= totalSamples
      && forall i :: 0 <= i < n ==> r.value.0[i] == Sample(vibAmp, vibFreq, coeffs, sin, totalSamples, i)
  {
    var d := totalDurationSec;
    if duration.Some? {
      if duration.value > totalDurationSec {
        return Err(DurationTooLong);
      }
      d := duration.value;
    }
    var totalSamples := Trunc(totalDurationSec * SAMPLE_RATE);
    var numOutputSamples := Trunc(d * SAMPLE_RATE);
    if numOutputSamples < 0 {
      return Err(NegativeLength);
    }
    if 0 < numOutputSamples {
      OutputFitsTotal(d, totalDurationSec);
    }
    var signal := VibrationLoop(vibAmp, vibFreq, coeffs, sin, totalSamples, numOutputSamples);
    return Ok((signal, d));
  }

  /** One loop step: adding the phase delta to phase_acc after i samples yields output sample i. */
  lemma SampleStep(vibAmp: seq<real>, vibFreq: seq<real>, coeffs: seq<real>, sin: real -> real,
                   totalSamples: nat, i: nat, phase: real)
    requires 0 < |vibAmp| && 0 < |vibFreq| && |coeffs| == COEFF_COUNT && i < totalSamples
    requires forall k :: 0 <= k < |vibFreq| ==> 0.0 <= vibFreq[k] <= 1.0
    requires phase == PhaseAfter(vibFreq, totalSamples, i)
    ensures var f := FreqAt(vibFreq, totalSamples, i);
            var next := phase + 2.0 * PI * f / SAMPLE_RATE;
            && next == PhaseAfter(vibFreq, totalSamples, i + 1)
            && 0 <= CoeffIndex(f) < COEFF_COUNT
            && Modulate(LinterpIndex(vibAmp, Perc(i, totalSamples)), sin, next, coeffs[CoeffIndex(f)])
               == Sample(vibAmp, vibFreq, coeffs, sin, totalSamples, i)
  {
    FreqInRange(vibFreq, totalSamples, i);
  }

  /** The sample loop, carrying phase_acc from one sample to the next. */
  method VibrationLoop(vibAmp: seq<real>, vibFreq: seq<real>, coeffs: seq<real>, sin: real -> real,
                       totalSamples: nat, numOutputSamples: nat)
    returns (signal: seq<real>)
    requires 0 < |vibAmp| && 0 < |vibFreq| && |coeffs| == COEFF_COUNT && numOutputSamples <= totalSamples
    requires forall k :: 0 <= k < |vibFreq| ==> 0.0 <= vibFreq[k] <= 1.0
    ensures |signal| == numOutputSamples
    ensures forall i :: 0 <= i < numOutputSamples ==> signal[i] == Sample(vibAmp, vibFreq, coeffs, sin, totalSamples, i)
  {
    signal := [];
    var phaseAcc := 0.0;
    var i := 0;
    while i < numOutputSamples
      invariant 0 <= i <= numOutputSamples && |signal| == i
      invariant phaseAcc == PhaseAfter(vibFreq, totalSamples, i)
      invariant forall k :: 0 <= k < i ==> signal[k] == Sample(vibAmp, vibFreq, coeffs, sin, totalSamples, k)
    {
      var perc := Perc(i, totalSamples);
      var sFreq := LinterpIndex(vibFreq, perc);
      var sAmp := LinterpIndex(vibAmp, perc);
      var currentFreq := MapFrequency(sFreq, 0.0, 1.0);
      var phaseDelta := 2.0 * PI * currentFreq / SAMPLE_RATE;
      SampleStep(vibAmp, vibFreq, coeffs, sin, totalSamples, i, phaseAcc);
      phaseAcc := phaseAcc + phaseDelta;
      signal := signal + [Modulate(sAmp, sin, phaseAcc, coeffs[CoeffIndex(currentFreq)])];
      i := i + 1;
    }
  }
}
