/**
 * Thermal response model of static/adjust_thermal.mjs.
 *
 * A calibration triple (a, b, c) describes how long a thermal actuator needs to
 * move |Δ| degrees away from baseline: f(Δ) = a + b·|Δ| + c·Δ².  Its derivative
 * b + 2c·|Δ| is the time per degree at offset Δ, which bounds the slope, and the
 * closed-form solution of T'(x) = ±1 / (b + 2c·T(x)) bounds how far the
 * temperature can move in a given time.
 *
 * All arithmetic is over the reals.  Math.sqrt is a parameter `sqrt`; the lemmas
 * assume only `IsSqrt(sqrt)`.  Where JavaScript would produce NaN the source
 * clamps to 0 or compares false, and the model states which.
 */
module AdjustThermal {
  import opened JsMath
  import opened Wrappers

  /** A coefficient triple [a, b, c]. */
  datatype Coeffs = Coeffs(a: real, b: real, c: real)

  /** A JavaScript number that may be infinite; NaN never leaves these functions. */
  datatype Number = Finite(value: real) | Infinite(positive: bool)

  /** How strictly limit_gradient_by_delta limits the slope. */
  const RELAX_FACTOR: real := 1.5

  /** The time per degree at temperature offset t: b + 2c·t. */
  function SecondsPerDegree(coeffs: Coeffs, t: real): real
  {
    coeffs.b + 2.0 * coeffs.c * t
  }

  // ---------------------------------------------------------------------------
  // evaluatePolynomial

  /**
   * evaluatePolynomial: a + b·|Δ| + c·Δ².  No change costs the offset a, and
   * with non-negative b and c no change costs less than that.
   */
  function EvaluatePolynomial(coeffs: Coeffs, delta: real): (r: real)
    ensures delta == 0.0 ==> r == coeffs.a
    ensures 0.0 <= coeffs.b && 0.0 <= coeffs.c ==> coeffs.a <= r
  {
    PolynomialTermsNonNegative(coeffs, delta);
    coeffs.a + coeffs.b * Abs(delta) + coeffs.c * delta * delta
  }

  /** With non-negative b and c both variable terms of the polynomial are non-negative. */
  lemma PolynomialTermsNonNegative(coeffs: Coeffs, delta: real)
    ensures 0.0 <= coeffs.b && 0.0 <= coeffs.c ==> 0.0 <= coeffs.b * Abs(delta) && 0.0 <= coeffs.c * delta * delta
  {
    assert delta * delta == Abs(delta) * Abs(delta);
    MulNonNeg(Abs(delta), Abs(delta));
    if 0.0 <= coeffs.b && 0.0 <= coeffs.c {
      MulNonNeg(coeffs.b, Abs(delta));
      MulNonNeg(coeffs.c, delta * delta);
      assert coeffs.c * delta * delta == coeffs.c * (delta * delta);
    }
  }

  /** The polynomial is even in Δ, and for Δ ≥ 0 it is the documented a + bΔ + cΔ². */
  lemma PolynomialIsEven(coeffs: Coeffs, delta: real)
    ensures EvaluatePolynomial(coeffs, delta) == EvaluatePolynomial(coeffs, -delta)
    ensures EvaluatePolynomial(coeffs, delta) == EvaluatePolynomial(coeffs, Abs(delta))
    ensures 0.0 <= delta ==> EvaluatePolynomial(coeffs, delta) == coeffs.a + coeffs.b * delta + coeffs.c * delta * delta
  {
    assert (-delta) * (-delta) == delta * delta;
  }

  /**
   * SecondsPerDegree is the derivative of the polynomial on the non-negative
   * half-line: f(t + h) − f(t) = h·(b + 2ct) + c·h².
   */
  lemma PolynomialIncrement(coeffs: Coeffs, t: real, h: real)
    requires 0.0 <= t && 0.0 <= t + h
    ensures EvaluatePolynomial(coeffs, t + h) - EvaluatePolynomial(coeffs, t)
         == h * SecondsPerDegree(coeffs, t) + coeffs.c * h * h
  {
    calc {
      EvaluatePolynomial(coeffs, t + h) - EvaluatePolynomial(coeffs, t);
      coeffs.b * h + coeffs.c * ((t + h) * (t + h) - t * t);
      { assert (t + h) * (t + h) - t * t == 2.0 * t * h + h * h; }
      coeffs.b * h + coeffs.c * (2.0 * t * h + h * h);
      h * SecondsPerDegree(coeffs, t) + coeffs.c * h * h;
    }
  }

  // ---------------------------------------------------------------------------
  // compute_max_thermal_slope_at_delta

  /**
   * compute_max_thermal_slope_at_delta: 1 / (b + 2c·|Δ|); 1/0 is +Infinity.
   * A finite slope is the reciprocal of the time per degree at |Δ|.
   */
  function MaxThermalSlope(coeffs: Coeffs, delta: real): (r: Number)
    ensures r.Finite? <==> SecondsPerDegree(coeffs, Abs(delta)) != 0.0
    ensures r.Finite? ==> r.value * SecondsPerDegree(coeffs, Abs(delta)) == 1.0
    ensures r.Infinite? ==> r.positive
    ensures 0.0 < SecondsPerDegree(coeffs, Abs(delta)) ==> r.Finite? && 0.0 < r.value
  {
    var d := SecondsPerDegree(coeffs, Abs(delta));
    if d == 0.0 then Infinite(true) else Finite(1.0 / d)
  }

  /**
   * The slope bound is the reciprocal of the polynomial's derivative at |Δ|,
   * and it depends on Δ only through |Δ|.
   */
  lemma MaxSlopeIsReciprocalDerivative(coeffs: Coeffs, delta: real, h: real)
    requires 0.0 <= Abs(delta) + h
    ensures MaxThermalSlope(coeffs, delta) == MaxThermalSlope(coeffs, -delta)
    ensures MaxThermalSlope(coeffs, delta).Finite? ==>
      MaxThermalSlope(coeffs, delta).value
        * (EvaluatePolynomial(coeffs, Abs(delta) + h) - EvaluatePolynomial(coeffs, Abs(delta)) - coeffs.c * h * h)
      == h
  {
    PolynomialIncrement(coeffs, Abs(delta), h);
    var d := SecondsPerDegree(coeffs, Abs(delta));
    if d != 0.0 {
      assert (1.0 / d) * (h * d) == h;
    }
  }

  // ---------------------------------------------------------------------------
  // compute_max_thermal_change_at_temp_for_time

  /** +1 for a warming bound, −1 for a cooling bound (`nf`). */
  function Direction(negative: bool): real
  {
    if negative then -1.0 else 1.0
  }

  /** The radicand (b + 2c·T0)² + nf·4c·x of the closed form, with T0 = |delta_temp|. */
  function ChangeRadicand(coeffs: Coeffs, deltaTemp: real, deltaTime: real, negative: bool): real
  {
    var slope := SecondsPerDegree(coeffs, Abs(deltaTemp));
    slope * slope + Direction(negative) * 4.0 * coeffs.c * deltaTime
  }

  /**
   * compute_max_thermal_change_at_temp_for_time:
   * (sqrt((b + 2c·T0)² + nf·4c·x) − (b + 2c·T0)) / (2c), with NaN replaced by 0.
   * NaN arises from the square root of a negative radicand and from 0/0 when c = 0;
   * a non-zero numerator over 2c = 0 is an infinity, which the source returns as is.
   */
  function MaxThermalChange(sqrt: real -> real, coeffs: Coeffs, deltaTemp: real, deltaTime: real, negative: bool): (r: Number)
    ensures coeffs.c != 0.0 ==> r.Finite?
    ensures ChangeRadicand(coeffs, deltaTemp, deltaTime, negative) < 0.0 ==> r == Finite(0.0)
  {
    var slope := SecondsPerDegree(coeffs, Abs(deltaTemp));
    var radicand := ChangeRadicand(coeffs, deltaTemp, deltaTime, negative);
    if radicand < 0.0 then Finite(0.0)
    else
      var numerator := sqrt(radicand) - slope;
      if coeffs.c != 0.0 then Finite(numerator / (2.0 * coeffs.c))
      else if numerator == 0.0 then Finite(0.0)
      else Infinite(numerator > 0.0)
  }

  /** The bound depends on delta_temp only through its magnitude. */
  lemma MaxChangeDependsOnMagnitude(sqrt: real -> real, coeffs: Coeffs, deltaTemp: real, deltaTime: real, negative: bool)
    ensures MaxThermalChange(sqrt, coeffs, deltaTemp, deltaTime, negative)
         == MaxThermalChange(sqrt, coeffs, -deltaTemp, deltaTime, negative)
  {
    assert Abs(deltaTemp) == Abs(-deltaTemp);
    assert SecondsPerDegree(coeffs, Abs(deltaTemp)) == SecondsPerDegree(coeffs, Abs(-deltaTemp));
    assert ChangeRadicand(coeffs, deltaTemp, deltaTime, negative) == ChangeRadicand(coeffs, -deltaTemp, deltaTime, negative);
  }

  /**
   * The closed form solves the quadratic c·r² + (b + 2c·T0)·r = nf·x whenever
   * the radicand is non-negative and c ≠ 0.
   */
  lemma {:induction false} MaxChangeSolvesQuadratic(sqrt: real -> real, coeffs: Coeffs, deltaTemp: real, deltaTime: real, negative: bool)
    requires IsSqrt(sqrt)
    requires coeffs.c != 0.0
    requires 0.0 <= ChangeRadicand(coeffs, deltaTemp, deltaTime, negative)
    ensures var r := MaxThermalChange(sqrt, coeffs, deltaTemp, deltaTime, negative).value;
            coeffs.c * r * r + SecondsPerDegree(coeffs, Abs(deltaTemp)) * r == Direction(negative) * deltaTime
  {
    var slope := SecondsPerDegree(coeffs, Abs(deltaTemp));
    var radicand := ChangeRadicand(coeffs, deltaTemp, deltaTime, negative);
    var s := sqrt(radicand);
    assert s * s == radicand;
    RadicandAsSquare(coeffs, deltaTemp, deltaTime, negative);
    MaxChangeClosedForm(sqrt, coeffs, deltaTemp, deltaTime, negative);
    QuadraticRoot(coeffs.c, slope, s, Direction(negative) * deltaTime,
                  MaxThermalChange(sqrt, coeffs, deltaTemp, deltaTime, negative).value);
  }

  /** With c ≠ 0 and a non-negative radicand, the bound is the closed form itself. */
  lemma MaxChangeClosedForm(sqrt: real -> real, coeffs: Coeffs, deltaTemp: real, deltaTime: real, negative: bool)
    requires coeffs.c != 0.0
    requires 0.0 <= ChangeRadicand(coeffs, deltaTemp, deltaTime, negative)
    ensures MaxThermalChange(sqrt, coeffs, deltaTemp, deltaTime, negative).value
         == (sqrt(ChangeRadicand(coeffs, deltaTemp, deltaTime, negative)) - SecondsPerDegree(coeffs, Abs(deltaTemp))) / (2.0 * coeffs.c)
  {
  }

  /** The radicand is slope² + 4c·(nf·x). */
  lemma RadicandAsSquare(coeffs: Coeffs, deltaTemp: real, deltaTime: real, negative: bool)
    ensures var slope := SecondsPerDegree(coeffs, Abs(deltaTemp));
            ChangeRadicand(coeffs, deltaTemp, deltaTime, negative)
            == slope * slope + 4.0 * coeffs.c * (Direction(negative) * deltaTime)
  {
    if negative {
      assert 4.0 * coeffs.c * (-1.0 * deltaTime) == -1.0 * 4.0 * coeffs.c * deltaTime;
    }
  }

  /** r = (s − p) / (2c) solves c·r² + p·r = q when s² = p² + 4c·q. */
  lemma QuadraticRoot(c: real, p: real, s: real, q: real, r: real)
    requires c != 0.0 && s * s == p * p + 4.0 * c * q
    requires r == (s - p) / (2.0 * c)
    ensures c * r * r + p * r == q
  {
    var u := 2.0 * c * r;
    assert u == s - p;
    assert 4.0 * c * (c * r * r + p * r) == u * u + 2.0 * p * u;
    assert u * u + 2.0 * p * u == (u + p) * (u + p) - p * p;
    assert (u + p) * (u + p) == s * s;
    assert 4.0 * c * (c * r * r + p * r) == 4.0 * c * q;
  }

  /** With no time to act (x = 0) and a positive time per degree, no change is possible. */
  lemma MaxChangeAtZeroTime(sqrt: real -> real, coeffs: Coeffs, deltaTemp: real, negative: bool)
    requires IsSqrt(sqrt)
    requires 0.0 <= SecondsPerDegree(coeffs, Abs(deltaTemp))
    ensures MaxThermalChange(sqrt, coeffs, deltaTemp, 0.0, negative) == Finite(0.0)
  {
    var slope := SecondsPerDegree(coeffs, Abs(deltaTemp));
    assert ChangeRadicand(coeffs, deltaTemp, 0.0, negative) == slope * slope;
    RootUnique(sqrt(slope * slope), slope);
  }

  /**
   * Where the time per degree is non-negative and time does not run backwards,
   * the warming bound is a finite non-negative number and the cooling bound a
   * finite non-positive one.
   */
  lemma MaxChangeSign(sqrt: real -> real, coeffs: Coeffs, deltaTemp: real, deltaTime: real)
    requires IsSqrt(sqrt)
    requires 0.0 <= SecondsPerDegree(coeffs, Abs(deltaTemp)) && 0.0 <= deltaTime
    ensures MaxThermalChange(sqrt, coeffs, deltaTemp, deltaTime, false).Finite?
    ensures MaxThermalChange(sqrt, coeffs, deltaTemp, deltaTime, true).Finite?
    ensures 0.0 <= MaxThermalChange(sqrt, coeffs, deltaTemp, deltaTime, false).value
    ensures MaxThermalChange(sqrt, coeffs, deltaTemp, deltaTime, true).value <= 0.0
  {
    var c := coeffs.c;
    var slope := SecondsPerDegree(coeffs, Abs(deltaTemp));
    if c == 0.0 {
      assert ChangeRadicand(coeffs, deltaTemp, deltaTime, false) == slope * slope;
      assert ChangeRadicand(coeffs, deltaTemp, deltaTime, true) == slope * slope;
      RootUnique(sqrt(slope * slope), slope);
    } else {
      SignOneSide(sqrt, coeffs, deltaTemp, deltaTime, false);
      SignOneSide(sqrt, coeffs, deltaTemp, deltaTime, true);
    }
  }

  lemma SignOneSide(sqrt: real -> real, coeffs: Coeffs, deltaTemp: real, deltaTime: real, negative: bool)
    requires IsSqrt(sqrt) && coeffs.c != 0.0
    requires 0.0 <= SecondsPerDegree(coeffs, Abs(deltaTemp)) && 0.0 <= deltaTime
    ensures var r := MaxThermalChange(sqrt, coeffs, deltaTemp, deltaTime, negative).value;
            if negative then r <= 0.0 else 0.0 <= r
  {
    var c := coeffs.c;
    var slope := SecondsPerDegree(coeffs, Abs(deltaTemp));
    var radicand := ChangeRadicand(coeffs, deltaTemp, deltaTime, negative);
    if 0.0 <= radicand {
      var s := sqrt(radicand);
      var q := Direction(negative) * deltaTime;
      RadicandAsSquare(coeffs, deltaTemp, deltaTime, negative);
      assert s * s == slope * slope + 4.0 * c * q;
      // c·q has the sign of nf·c, and s − slope has the sign of c·q
      if (0.0 < c) == negative {
        if 0.0 < c { MulNonNeg(c, -q); } else { MulNonNeg(-c, q); }
        RootSide(c, slope, s, q);
        assert s - slope <= 0.0;
      } else {
        if 0.0 < c { MulNonNeg(c, q); } else { MulNonNeg(-c, -q); }
        RootSide(c, slope, s, q);
        assert 0.0 <= s - slope;
      }
      QuotientSign(s - slope, 2.0 * c);
      assert MaxThermalChange(sqrt, coeffs, deltaTemp, deltaTime, negative).value == (s - slope) / (2.0 * c);
    }
  }

  /** The root s of s² = p² + 4c·q lies above p when c·q ≥ 0 and below it when c·q ≤ 0. */
  lemma RootSide(c: real, p: real, s: real, q: real)
    requires 0.0 <= p && 0.0 <= s && s * s == p * p + 4.0 * c * q
    ensures 0.0 <= c * q ==> p <= s
    ensures c * q <= 0.0 ==> s <= p
  {
    SquareMonotone(s, p);
    SquareMonotone(p, s);
  }

  /** The sign of a quotient. */
  lemma QuotientSign(n: real, d: real)
    requires d != 0.0
    ensures (0.0 <= n) == (0.0 < d) || n == 0.0 ==> 0.0 <= n / d
    ensures (0.0 <= n) != (0.0 < d) || n == 0.0 ==> n / d <= 0.0
  {
    assert (n / d) * d == n;
    if 0.0 < d {
      if n / d < 0.0 { MulPos(-(n / d), d); }
      if 0.0 < n / d { MulPos(n / d, d); }
    } else {
      if n / d < 0.0 { MulPos(-(n / d), -d); }
      if 0.0 < n / d { MulPos(n / d, -d); }
    }
  }

  /**
   * While the radicand stays non-negative, the warming bound does not decrease
   * as the time window grows.
   */
  lemma MaxChangeMonotoneInTime(sqrt: real -> real, coeffs: Coeffs, deltaTemp: real, time1: real, time2: real)
    requires IsSqrt(sqrt) && coeffs.c != 0.0
    requires time1 <= time2
    requires 0.0 <= ChangeRadicand(coeffs, deltaTemp, time1, false)
    requires 0.0 <= ChangeRadicand(coeffs, deltaTemp, time2, false)
    ensures MaxThermalChange(sqrt, coeffs, deltaTemp, time1, false).value
         <= MaxThermalChange(sqrt, coeffs, deltaTemp, time2, false).value
  {
    var c := coeffs.c;
    var slope := SecondsPerDegree(coeffs, Abs(deltaTemp));
    var rad1 := ChangeRadicand(coeffs, deltaTemp, time1, false);
    var rad2 := ChangeRadicand(coeffs, deltaTemp, time2, false);
    RadicandMonotoneInTime(coeffs, deltaTemp, time1, time2);
    if 0.0 < c {
      SqrtMonotone(sqrt, rad1, rad2);
      DivMonotone(sqrt(rad1) - slope, sqrt(rad2) - slope, 2.0 * c);
    } else {
      SqrtMonotone(sqrt, rad2, rad1);
      DivMonotone(sqrt(rad2) - slope, sqrt(rad1) - slope, 2.0 * c);
    }
  }

  /** The warming radicand grows with the time window when c > 0 and shrinks when c < 0. */
  lemma RadicandMonotoneInTime(coeffs: Coeffs, deltaTemp: real, time1: real, time2: real)
    requires time1 <= time2
    ensures 0.0 <= coeffs.c ==> ChangeRadicand(coeffs, deltaTemp, time1, false) <= ChangeRadicand(coeffs, deltaTemp, time2, false)
    ensures coeffs.c <= 0.0 ==> ChangeRadicand(coeffs, deltaTemp, time2, false) <= ChangeRadicand(coeffs, deltaTemp, time1, false)
  {
    ScaleMonotone(Direction(false) * 4.0 * coeffs.c, time1, time2);
  }

  /** Multiplying by k keeps the order of x ≤ y when k ≥ 0 and reverses it when k ≤ 0. */
  lemma ScaleMonotone(k: real, x: real, y: real)
    requires x <= y
    ensures 0.0 <= k ==> k * x <= k * y
    ensures k <= 0.0 ==> k * y <= k * x
  {
    assert k * y - k * x == k * (y - x);
    if 0.0 <= k {
      MulNonNeg(k, y - x);
    } else {
      MulNonNeg(-k, y - x);
      assert (-k) * (y - x) == -(k * (y - x));
    }
  }

  /** Dividing by d keeps the order of x ≤ y when d > 0 and reverses it when d < 0. */
  lemma DivMonotone(x: real, y: real, d: real)
    requires x <= y && d != 0.0
    ensures 0.0 < d ==> x / d <= y / d
    ensures d < 0.0 ==> y / d <= x / d
  {
    QuotientSign(y - x, d);
    DivDifference(x, y, d);
  }

  lemma DivDifference(x: real, y: real, d: real)
    requires d != 0.0
    ensures y / d - x / d == (y - x) / d
  {
  }

  /**
   * With c < 0 the NaN clamp breaks that monotonicity: the radicand falls as
   * the window grows, and once it is negative the bound drops from a positive
   * value back to 0.
   */
  lemma MaxChangeCollapsesPastCriticalTime(sqrt: real -> real, coeffs: Coeffs, deltaTemp: real,
                                           time1: real, time2: real)
    requires IsSqrt(sqrt)
    requires coeffs.c < 0.0 && 0.0 <= SecondsPerDegree(coeffs, Abs(deltaTemp))
    requires 0.0 < time1 < time2
    requires 0.0 <= ChangeRadicand(coeffs, deltaTemp, time1, false)
    requires ChangeRadicand(coeffs, deltaTemp, time2, false) < 0.0
    ensures 0.0 < MaxThermalChange(sqrt, coeffs, deltaTemp, time1, false).value
    ensures MaxThermalChange(sqrt, coeffs, deltaTemp, time2, false) == Finite(0.0)
  {
    var c := coeffs.c;
    var slope := SecondsPerDegree(coeffs, Abs(deltaTemp));
    var rad := ChangeRadicand(coeffs, deltaTemp, time1, false);
    var s := sqrt(rad);
    assert 0.0 <= s && s * s == rad;
    MulPos(-c, time1);
    assert rad < slope * slope;
    SquareMonotone(slope, s);
    NegativeQuotient(s - slope, 2.0 * c);
    assert MaxThermalChange(sqrt, coeffs, deltaTemp, time1, false).value == (s - slope) / (2.0 * c);
  }

  /** A negative numerator over a negative denominator gives a positive quotient. */
  lemma NegativeQuotient(n: real, d: real)
    requires n < 0.0 && d < 0.0
    ensures 0.0 < n / d
  {
    assert (n / d) * d == n;
    if n / d <= 0.0 {
      MulNonNeg(-(n / d), -d);
    }
  }

  // ---------------------------------------------------------------------------
  // generateThermalWaveform

  datatype WaveformError = InvalidArrayLength

  /** `new Array(n)` accepts exactly the integers 0 ≤ n < 2³²; anything else throws RangeError. */
  predicate IsArrayLength(n: real)
  {
    n == n.Floor as real && 0.0 <= n < 4294967296.0
  }

  /** Math.floor(seconds · sampleRate) */
  function SampleCount(seconds: real, sampleRate: real): int
  {
    (seconds * sampleRate).Floor
  }

  /**
   * The layout of a rise/hold/return waveform with the given phase lengths:
   * the hold fills whatever the rise and the return leave of the total.
   */
  ghost predicate WaveformShape(signal: seq<real>, delta: real, total: int, rise: int, ret: int)
  {
    var hold := MaxInt(0, total - rise - ret);
    && |signal| == MaxInt(total, MaxInt(rise, 0) + hold + MaxInt(ret, 0))
    && FollowsPhases(signal, delta, rise, hold, ret)
  }

  /**
   * generateThermalWaveform: all zeros when delta is 0 (an error when
   * duration·sampleRate is no array length), otherwise a linear rise over the
   * polynomial's rise time, a hold at delta and a linear return, zero-padded
   * to the total sample count.
   */
  method GenerateThermalWaveform(delta: real, riseCoeffs: Coeffs, returnCoeffs: Coeffs, duration: real, sampleRate: real)
    returns (r: Result<seq<real>, WaveformError>)
    ensures delta == 0.0 ==> (r.Ok? <==> IsArrayLength(duration * sampleRate))
    ensures delta == 0.0 && r.Ok? ==>
      |r.value| as real == duration * sampleRate && forall i :: 0 <= i < |r.value| ==> r.value[i] == 0.0
    ensures delta != 0.0 ==> r.Ok? && WaveformShape(r.value, delta, SampleCount(duration, sampleRate),
      SampleCount(EvaluatePolynomial(riseCoeffs, Abs(delta)), sampleRate),
      SampleCount(EvaluatePolynomial(returnCoeffs, Abs(delta)), sampleRate))
    ensures delta != 0.0 ==>
      var rise := SampleCount(EvaluatePolynomial(riseCoeffs, Abs(delta)), sampleRate);
      var ret := SampleCount(EvaluatePolynomial(returnCoeffs, Abs(delta)), sampleRate);
      0 <= rise && 0 <= ret ==> |r.value| == MaxInt(SampleCount(duration, sampleRate), rise + ret)
  {
    if delta == 0.0 {
      var n := duration * sampleRate;
      if !IsArrayLength(n) {
        return Err(InvalidArrayLength);
      }
      return Ok(seq(n.Floor, _ => 0.0));
    }
    var riseTime := EvaluatePolynomial(riseCoeffs, Abs(delta));
    var returnTime := EvaluatePolynomial(returnCoeffs, Abs(delta));

    var totalSamples := SampleCount(duration, sampleRate);
    var riseSamples := SampleCount(riseTime, sampleRate);
    var returnSamples := SampleCount(returnTime, sampleRate);
    var signal := PhasedWaveform(delta, totalSamples, riseSamples, returnSamples);
    return Ok(signal);
  }

  /** The push loops of generateThermalWaveform: rise, hold, return. */
  method PhasedWaveform(delta: real, totalSamples: int, riseSamples: int, returnSamples: int)
    returns (signal: seq<real>)
    ensures WaveformShape(signal, delta, totalSamples, riseSamples, returnSamples)
    ensures 0 <= riseSamples && 0 <= returnSamples ==>
      |signal| == MaxInt(totalSamples, riseSamples + returnSamples)
  {
    var holdSamples := MaxInt(0, totalSamples - riseSamples - returnSamples);
    signal := RisePhase(delta, riseSamples, holdSamples, returnSamples);
    signal := HoldPhase(signal, delta, riseSamples, holdSamples, returnSamples);
    signal := ReturnPhase(signal, delta, riseSamples, holdSamples, returnSamples);
    // the zero-padding loop that follows in the source never runs
    PaddingNeverRuns(totalSamples, riseSamples, returnSamples);
  }

  /** Samples k of signal follow PhaseSample. */
  ghost predicate FollowsPhases(signal: seq<real>, delta: real, rise: int, hold: int, ret: int)
  {
    forall k :: 0 <= k < |signal| ==> signal[k] == PhaseSample(k, delta, rise, hold, ret)
  }

  method RisePhase(delta: real, rise: int, hold: int, ret: int) returns (signal: seq<real>)
    ensures |signal| == MaxInt(rise, 0) && FollowsPhases(signal, delta, rise, hold, ret)
  {
    signal := [];
    var i := 0;
    while i < rise
      invariant 0 <= i <= MaxInt(rise, 0) && |signal| == i
      invariant FollowsPhases(signal, delta, rise, hold, ret)
    {
      assert PhaseSample(i, delta, rise, hold, ret) == (i as real / rise as real) * delta;
      signal := signal + [(i as real / rise as real) * delta];
      i := i + 1;
    }
  }

  method HoldPhase(prefix: seq<real>, delta: real, rise: int, hold: int, ret: int) returns (signal: seq<real>)
    requires 0 <= hold
    requires |prefix| == MaxInt(rise, 0) && FollowsPhases(prefix, delta, rise, hold, ret)
    ensures |signal| == MaxInt(rise, 0) + hold && FollowsPhases(signal, delta, rise, hold, ret)
  {
    signal := prefix;
    var i := 0;
    while i < hold
      invariant 0 <= i <= hold && |signal| == MaxInt(rise, 0) + i
      invariant FollowsPhases(signal, delta, rise, hold, ret)
    {
      assert PhaseSample(|signal|, delta, rise, hold, ret) == delta;
      signal := signal + [delta];
      i := i + 1;
    }
  }

  method ReturnPhase(prefix: seq<real>, delta: real, rise: int, hold: int, ret: int) returns (signal: seq<real>)
    requires 0 <= hold
    requires |prefix| == MaxInt(rise, 0) + hold && FollowsPhases(prefix, delta, rise, hold, ret)
    ensures |signal| == MaxInt(rise, 0) + hold + MaxInt(ret, 0) && FollowsPhases(signal, delta, rise, hold, ret)
  {
    signal := prefix;
    var i := 0;
    while i < ret
      invariant 0 <= i <= MaxInt(ret, 0) && |signal| == MaxInt(rise, 0) + hold + i
      invariant FollowsPhases(signal, delta, rise, hold, ret)
    {
      assert PhaseSample(|signal|, delta, rise, hold, ret) == delta * (1.0 - i as real / ret as real);
      signal := signal + [delta * (1.0 - i as real / ret as real)];
      i := i + 1;
    }
  }

  /**
   * The rise, hold and return phases together always reach the total sample
   * count, so generateThermalWaveform's zero-padding loop never appends.
   */
  lemma PaddingNeverRuns(total: int, rise: int, ret: int)
    ensures total <= MaxInt(rise, 0) + MaxInt(0, total - rise - ret) + MaxInt(ret, 0)
  {
  }

  /** The value of sample k of a waveform with the given rise, hold and return lengths. */
  function PhaseSample(k: nat, delta: real, rise: int, hold: int, ret: int): real
  {
    var r := MaxInt(rise, 0);
    if k < r then (k as real / rise as real) * delta
    else if k < r + hold then delta
    else if k < r + hold + MaxInt(ret, 0) then delta * (1.0 - (k - r - hold) as real / ret as real)
    else 0.0
  }

  /** Every sample of a rise/hold/return waveform lies between 0 and delta. */
  lemma WaveformWithinDelta(signal: seq<real>, delta: real, total: int, rise: int, ret: int)
    requires WaveformShape(signal, delta, total, rise, ret)
    ensures forall i :: 0 <= i < |signal| ==> Between(signal[i], 0.0, delta)
  {
    var r := MaxInt(rise, 0);
    var h := MaxInt(0, total - rise - ret);
    var t := MaxInt(ret, 0);
    forall i | 0 <= i < |signal|
      ensures Between(signal[i], 0.0, delta)
    {
      assert signal[i] == PhaseSample(i, delta, rise, h, ret);
      if i < r {
        IndexFraction(i, rise);
        FractionOfDelta(i as real / rise as real, delta);
      } else if r + h <= i < r + h + t {
        IndexFraction(i - r - h, ret);
        FractionOfDelta(1.0 - (i - r - h) as real / ret as real, delta);
        assert signal[i] == (1.0 - (i - r - h) as real / ret as real) * delta;
      }
    }
  }

  /**
   * A waveform with a rise phase starts at 0 and climbs in equal steps of
   * delta/rise; the sample after the rise (when there is one) is delta.
   */
  lemma WaveformRisesLinearly(signal: seq<real>, delta: real, total: int, rise: int, ret: int)
    requires WaveformShape(signal, delta, total, rise, ret) && 0 < rise && 0 <= ret
    ensures signal[0] == 0.0
    ensures forall i :: 0 <= i < rise - 1 ==> signal[i + 1] - signal[i] == delta / rise as real
    ensures rise < |signal| && rise + ret < total ==> signal[rise] == delta
  {
    assert signal[0] == PhaseSample(0, delta, rise, MaxInt(0, total - rise - ret), ret);
    forall i | 0 <= i < rise - 1
      ensures signal[i + 1] - signal[i] == delta / rise as real
    {
      assert signal[i] == PhaseSample(i, delta, rise, MaxInt(0, total - rise - ret), ret);
      assert signal[i + 1] == PhaseSample(i + 1, delta, rise, MaxInt(0, total - rise - ret), ret);
      assert (i + 1) as real / rise as real - i as real / rise as real == 1.0 / rise as real;
    }
    if rise < |signal| && rise + ret < total {
      assert signal[rise] == PhaseSample(rise, delta, rise, MaxInt(0, total - rise - ret), ret);
    }
  }

  lemma FractionOfDelta(w: real, delta: real)
    requires 0.0 <= w <= 1.0
    ensures Between(w * delta, 0.0, delta)
  {
    if 0.0 <= delta {
      MulNonNeg(w, delta);
      MulNonNeg(1.0 - w, delta);
      assert (1.0 - w) * delta == delta - w * delta;
    } else {
      MulNonNeg(w, -delta);
      MulNonNeg(1.0 - w, -delta);
      assert (1.0 - w) * (-delta) == w * delta - delta;
      assert w * (-delta) == -(w * delta);
    }
  }

  // ---------------------------------------------------------------------------
  // limit_gradient_by_delta

  /**
   * A per-sample step limit.  `Unbounded` stands for a NaN or +Infinity step
   * (a zero rise/return time or a zero sample rate), which never compares
   * smaller than a difference and so never clips.
   */
  datatype StepBound = Bounded(step: real) | Unbounded

  /** max_rise_step / max_return_step: (|Δ|/t)·(duration/t)·RELAX_FACTOR / sampleRate. */
  function MaxStep(delta: real, coeffs: Coeffs, duration: real, sampleRate: real): (s: StepBound)
    requires 0.0 <= duration && 0.0 <= sampleRate
    ensures s.Bounded? ==> 0.0 <= s.step
  {
    var t := EvaluatePolynomial(coeffs, Abs(delta));
    if t == 0.0 || sampleRate == 0.0 then Unbounded
    else
      StepNonNegative(Abs(delta), duration, t);
      Bounded((Abs(delta) / t) * (duration / t) * RELAX_FACTOR / sampleRate)
  }

  lemma StepNonNegative(x: real, y: real, t: real)
    requires 0.0 <= x && 0.0 <= y && t != 0.0
    ensures 0.0 <= (x / t) * (y / t)
  {
    if t < 0.0 {
      assert x / t <= 0.0 && y / t <= 0.0;
      MulNonNeg(-(x / t), -(y / t));
    } else {
      MulNonNeg(x / t, y / t);
    }
  }

  /** The limit that applies to moving from prev to next: rising steps use the rise limit. */
  function ChosenStep(prev: real, next: real, delta: real, riseStep: StepBound, returnStep: StepBound): StepBound
  {
    if Sign(next - prev) == Sign(delta) then riseStep else returnStep
  }

  /**
   * One iteration of the limiter: clip the step from prev to desired to the
   * chosen limit.  A step within its limit is kept; with non-negative limits
   * the result lies between prev and desired, no further from prev than the
   * limit allows.
   */
  function LimitStep(prev: real, desired: real, delta: real, riseStep: StepBound, returnStep: StepBound): (r: real)
    ensures var s := ChosenStep(prev, desired, delta, riseStep, returnStep);
            s.Unbounded? || Abs(desired - prev) <= s.step ==> r == desired
    ensures NonNegativeSteps(riseStep, returnStep) ==> Between(r, prev, desired)
    ensures var s := ChosenStep(prev, desired, delta, riseStep, returnStep);
            NonNegativeSteps(riseStep, returnStep) && s.Bounded? ==> Abs(r - prev) <= s.step
  {
    var dy := desired - prev;
    var s := ChosenStep(prev, desired, delta, riseStep, returnStep);
    if s.Bounded? && Abs(dy) > s.step then prev + Sign(dy) as real * s.step else desired
  }

  /** The limiter's output: each sample is clipped relative to the already clipped one before it. */
  function GradientLimited(s: seq<real>, delta: real, riseStep: StepBound, returnStep: StepBound): (r: seq<real>)
    ensures |r| == |s|
    ensures |s| > 0 ==> r[0] == s[0]
  {
    if |s| <= 1 then s
    else
      var p := GradientLimited(s[..|s| - 1], delta, riseStep, returnStep);
      p + [LimitStep(p[|p| - 1], s[|s| - 1], delta, riseStep, returnStep)]
  }

  /** Every step of r is within the limit chosen for its own direction. */
  ghost predicate StepsWithin(r: seq<real>, delta: real, riseStep: StepBound, returnStep: StepBound)
  {
    forall i :: 1 <= i < |r| ==>
      var s := ChosenStep(r[i - 1], r[i], delta, riseStep, returnStep);
      s.Bounded? ==> Abs(r[i] - r[i - 1]) <= s.step
  }

  ghost predicate NonNegativeSteps(riseStep: StepBound, returnStep: StepBound)
  {
    (riseStep.Bounded? ==> 0.0 <= riseStep.step) && (returnStep.Bounded? ==> 0.0 <= returnStep.step)
  }

  /** One clipped step stays within the limit of the direction it ends up taking. */
  lemma LimitStepWithin(prev: real, desired: real, delta: real, riseStep: StepBound, returnStep: StepBound)
    requires NonNegativeSteps(riseStep, returnStep)
    ensures var next := LimitStep(prev, desired, delta, riseStep, returnStep);
            var s := ChosenStep(prev, next, delta, riseStep, returnStep);
            s.Bounded? ==> Abs(next - prev) <= s.step
  {
    var dy := desired - prev;
    var s := ChosenStep(prev, desired, delta, riseStep, returnStep);
    if s.Bounded? && Abs(dy) > s.step {
      var next := prev + Sign(dy) as real * s.step;
      if s.step > 0.0 {
        assert Sign(next - prev) == Sign(dy);
      } else {
        assert next == prev;
      }
    }
  }

  /** A step already within its limit is left unchanged. */
  lemma LimitStepKeepsBoundedStep(prev: real, next: real, delta: real, riseStep: StepBound, returnStep: StepBound)
    requires var s := ChosenStep(prev, next, delta, riseStep, returnStep);
             s.Bounded? ==> Abs(next - prev) <= s.step
    ensures LimitStep(prev, next, delta, riseStep, returnStep) == next
  {
  }

  /** The limiter's output restricted to a prefix is the limiter's output on that prefix. */
  lemma {:induction false} GradientLimitedPrefix(s: seq<real>, k: nat, delta: real, riseStep: StepBound, returnStep: StepBound)
    requires 1 <= k <= |s|
    ensures GradientLimited(s, delta, riseStep, returnStep)[..k] == GradientLimited(s[..k], delta, riseStep, returnStep)
    decreases |s|
  {
    if k < |s| {
      var init := s[..|s| - 1];
      GradientLimitedPrefix(init, k, delta, riseStep, returnStep);
      assert init[..k] == s[..k];
      var g := GradientLimited(s, delta, riseStep, returnStep);
      assert g[..|s| - 1] == GradientLimited(init, delta, riseStep, returnStep);
      assert g[..k] == g[..|s| - 1][..k];
    } else {
      assert s[..k] == s;
    }
  }

  /** The recurrence of the limiter loop: out[i] = LimitStep(out[i−1], samples[i]). */
  lemma GradientLimitedRecurrence(s: seq<real>, i: nat, delta: real, riseStep: StepBound, returnStep: StepBound)
    requires 1 <= i < |s|
    ensures var r := GradientLimited(s, delta, riseStep, returnStep);
            r[i] == LimitStep(r[i - 1], s[i], delta, riseStep, returnStep)
  {
    var r := GradientLimited(s, delta, riseStep, returnStep);
    GradientLimitedPrefix(s, i + 1, delta, riseStep, returnStep);
    var p := s[..i + 1];
    assert p[..|p| - 1] == s[..i];
    GradientLimitedPrefix(s, i, delta, riseStep, returnStep);
    assert r[i] == r[..i + 1][i];
  }

  /** After limiting, every step is within the limit for its direction. */
  lemma {:induction false} GradientLimitedBoundsSteps(s: seq<real>, delta: real, riseStep: StepBound, returnStep: StepBound)
    requires NonNegativeSteps(riseStep, returnStep)
    ensures StepsWithin(GradientLimited(s, delta, riseStep, returnStep), delta, riseStep, returnStep)
  {
    var r := GradientLimited(s, delta, riseStep, returnStep);
    forall i | 1 <= i < |r|
      ensures var st := ChosenStep(r[i - 1], r[i], delta, riseStep, returnStep);
              st.Bounded? ==> Abs(r[i] - r[i - 1]) <= st.step
    {
      GradientLimitedRecurrence(s, i, delta, riseStep, returnStep);
      LimitStepWithin(r[i - 1], s[i], delta, riseStep, returnStep);
    }
  }

  /** A sequence whose steps are all within their limits is a fixed point of the limiter. */
  lemma {:induction false} GradientLimitedFixedPoint(r: seq<real>, delta: real, riseStep: StepBound, returnStep: StepBound)
    requires StepsWithin(r, delta, riseStep, returnStep)
    ensures GradientLimited(r, delta, riseStep, returnStep) == r
    decreases |r|
  {
    if |r| > 1 {
      var init := r[..|r| - 1];
      assert StepsWithin(init, delta, riseStep, returnStep) by {
        forall i | 1 <= i < |init|
          ensures var st := ChosenStep(init[i - 1], init[i], delta, riseStep, returnStep);
                  st.Bounded? ==> Abs(init[i] - init[i - 1]) <= st.step
        {
          assert init[i] == r[i] && init[i - 1] == r[i - 1];
        }
      }
      GradientLimitedFixedPoint(init, delta, riseStep, returnStep);
      var n := |r| - 1;
      LimitStepKeepsBoundedStep(r[n - 1], r[n], delta, riseStep, returnStep);
      assert init + [r[n]] == r;
    }
  }

  /** Limiting twice is limiting once. */
  lemma GradientLimitedIdempotent(s: seq<real>, delta: real, riseStep: StepBound, returnStep: StepBound)
    requires NonNegativeSteps(riseStep, returnStep)
    ensures var r := GradientLimited(s, delta, riseStep, returnStep);
            GradientLimited(r, delta, riseStep, returnStep) == r
  {
    GradientLimitedBoundsSteps(s, delta, riseStep, returnStep);
    GradientLimitedFixedPoint(GradientLimited(s, delta, riseStep, returnStep), delta, riseStep, returnStep);
  }

  /** Limiting one more sample appends one LimitStep to the limited prefix. */
  lemma GradientLimitedExtend(s: seq<real>, i: nat, delta: real, riseStep: StepBound, returnStep: StepBound)
    requires 1 <= i < |s|
    ensures var p := GradientLimited(s[..i], delta, riseStep, returnStep);
            GradientLimited(s[..i + 1], delta, riseStep, returnStep)
            == p + [LimitStep(p[i - 1], s[i], delta, riseStep, returnStep)]
  {
    assert s[..i + 1][..i] == s[..i];
  }

  /** The body of the limiter loop: clips sample i against the (already clipped) sample i − 1. */
  method ClipSample(a: array<real>, i: nat, delta: real, maxRiseStep: StepBound, maxReturnStep: StepBound)
    requires 1 <= i < a.Length
    modifies a
    ensures a[i] == LimitStep(a[i - 1], old(a[i]), delta, maxRiseStep, maxReturnStep)
    ensures forall k :: 0 <= k < a.Length && k != i ==> a[k] == old(a[k])
  {
    var deltaY := a[i] - a[i - 1];
    var isRising := Sign(deltaY) == Sign(delta);
    var maxStep := if isRising then maxRiseStep else maxReturnStep;
    if maxStep.Bounded? && Abs(deltaY) > maxStep.step {
      a[i] := a[i - 1] + Sign(deltaY) as real * maxStep.step;
    }
  }

  /**
   * limit_gradient_by_delta: copies the samples and clips, left to right, each
   * step that exceeds the rise or return limit.  The input array is only read.
   */
  method LimitGradientByDelta(samples: array<real>, delta: real, riseCoeffs: Coeffs, returnCoeffs: Coeffs,
                              duration: real, sampleRate: real)
    returns (limited: seq<real>)
    requires 0.0 <= duration && 0.0 <= sampleRate
    ensures limited == GradientLimited(samples[..], delta,
      MaxStep(delta, riseCoeffs, duration, sampleRate), MaxStep(delta, returnCoeffs, duration, sampleRate))
  {
    var newSamples := new real[samples.Length];
    forall k | 0 <= k < samples.Length {
      newSamples[k] := samples[k];
    }
    var maxRiseStep := MaxStep(delta, riseCoeffs, duration, sampleRate);
    var maxReturnStep := MaxStep(delta, returnCoeffs, duration, sampleRate);
    if newSamples.Length == 0 {
      return newSamples[..];
    }
    assert newSamples[..1] == samples[..1];
    var i := 1;
    while i < newSamples.Length
      invariant 1 <= i <= newSamples.Length
      invariant newSamples[..i] == GradientLimited(samples[..i], delta, maxRiseStep, maxReturnStep)
      invariant forall k :: i <= k < newSamples.Length ==> newSamples[k] == samples[k]
    {
      ClipSample(newSamples, i, delta, maxRiseStep, maxReturnStep);
      GradientLimitedExtend(samples[..], i, delta, maxRiseStep, maxReturnStep);
      assert newSamples[..i + 1] == newSamples[..i] + [newSamples[i]];
      i := i + 1;
    }
    assert samples[..newSamples.Length] == samples[..];
    return newSamples[..];
  }
}
