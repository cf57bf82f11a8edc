# Vibrotactile and thermal stimulus designer, in Dafny

This project models the core of a small browser-based experiment tool.
Participants draw three envelopes on canvases: vibration amplitude, vibration
frequency and thermal amplitude. The page turns the envelopes into a 10 kHz
vibration signal and a thermal signal, previews the waveform, and collects
ratings through a submit form. A Python side does three jobs:

- it re-synthesises the vibration with per-frequency calibration coefficients;
- it measures rise and return times from thermal logs;
- it keeps a registry of participants.

The model covers these parts:

- `AdjustThermal` (`static/adjust_thermal.mjs`): the quadratic fits of the
  time a thermal device needs for a temperature change, and the largest
  change reachable in a given time. It also covers the trapezoidal thermal
  waveform and the limiter that clips each step of a sampled thermal signal
  to the device's reachable change.
- `GenerateSignal` (`static/generate-signal.mjs`): the linear range maps
  between envelope values, frequencies and degrees, and linear
  interpolation inside an envelope. It also covers the synthesiser, which
  checks that the three envelopes agree on their durations and then
  produces the phase-accumulated vibration and the interpolated thermal
  channel.
- `DrawCanvas` (`static/drawcanvas.mjs`): the envelope canvas, a 150-sample
  array painted by mouse strokes. An optional slope callback filters its
  output. The module also covers the random band fill and the total and
  active durations.
- `MainPage` (`static/main.mjs`): the thermal slope callback the page
  installs on the thermal canvas, and the page session. The session tracks
  the flags "played" and "changed since play", the three rating sliders,
  the radio groups, the trial counter and the submit validation. A click
  on submit and the arrival of the save response are separate events.
- `NpWaveformCanvas` (`static/np-waveform-canvas.mjs`): the preview. It
  draws a min/max column per pixel and colours each column by the averaged
  frequency envelope.
- `PyGenerateSignal` (`play_signal/generate_signal.py`): the Python
  synthesiser. It adds a calibration coefficient per whole frequency from
  50 to 500 Hz.
- `RiseReturn` (`play_signal/compute_rising_return.py`): the rise time and
  the return time of one logged thermal stimulus.
- `UserInfo` (`user_info.py`): the `users.csv` registry and the per-user
  trial directories.

Two modules only support the rest. `JsMath` holds `Math.abs`, `min`, `max`,
`ceil`, `sign` and truncation on reals, plus a few arithmetic lemmas.
`Wrappers` holds `Option` and `Result`.

Numbers are Dafny `real`s. The square root, `Math.sin` and `np.sin`, and the
calibration coefficient table are parameters of the members that use them.
`IsSqrt` states what the proofs assume of the square root.

## Model

| member | source | states |
|---|---|---|
| AdjustThermal.PolynomialIsEven | static/adjust_thermal.mjs:40-42 | evaluate_polynomial uses only the magnitude of the delta, so it is even in the delta and equals a + b·d + c·d² for d ≥ 0 |
| AdjustThermal.PolynomialIncrement | static/adjust_thermal.mjs:14-16 | the difference of the fitted time between t and t+h is h·slope(t) + c·h², so the slope function is the derivative of the fit |
| AdjustThermal.EvaluatePolynomial | static/adjust_thermal.mjs:40-42 | the fitted time for a zero delta is the offset a, and with non-negative b and c no delta gives a time below a |
| AdjustThermal.MaxSlopeIsReciprocalDerivative | static/adjust_thermal.mjs:14-16 | the maximum slope is the same for ±delta and, when finite, is the reciprocal of the fit's derivative at the magnitude of the delta |
| AdjustThermal.MaxThermalSlope | static/adjust_thermal.mjs:14-16 | the slope is finite exactly when the time per degree at the magnitude of the delta is non-zero, and then their product is 1; otherwise it is +Infinity, and a positive time per degree gives a positive slope |
| AdjustThermal.MaxThermalChange | static/adjust_thermal.mjs:25-32 | the largest change is finite whenever the quadratic coefficient is non-zero, and a negative radicand (NaN in the source) gives 0 |
| AdjustThermal.MaxChangeDependsOnMagnitude | static/adjust_thermal.mjs:27-30 | the largest change depends only on the magnitude of the starting temperature |
| AdjustThermal.MaxChangeSolvesQuadratic | static/adjust_thermal.mjs:25-32 | the returned change r solves c·r² + slope·r = ±time, i.e. the fitted time to go from T0 to T0+r is the given time |
| AdjustThermal.MaxChangeAtZeroTime | static/adjust_thermal.mjs:25-32 | with no time available, no change is reachable in either direction |
| AdjustThermal.MaxChangeSign | static/adjust_thermal.mjs:25-32 | for non-negative time the upward change is finite and ≥ 0 and the downward change is finite and ≤ 0 |
| AdjustThermal.SignOneSide | static/adjust_thermal.mjs:29-30 | the root chosen by the formula lies on the side of zero that the direction asks for |
| AdjustThermal.MaxChangeMonotoneInTime | static/adjust_thermal.mjs:29-30 | while the radicand stays non-negative, more time never reaches a smaller upward change |
| AdjustThermal.MaxChangeCollapsesPastCriticalTime | static/adjust_thermal.mjs:30-31 | with a concave fit (c < 0), the change is positive before the radicand turns negative and falls to 0 after it |
| AdjustThermal.RadicandMonotoneInTime | static/adjust_thermal.mjs:29-30 | the upward radicand grows with time when c ≥ 0 and shrinks when c ≤ 0 |
| AdjustThermal.GenerateThermalWaveform | static/adjust_thermal.mjs:53-87 | delta 0 gives an all-zero signal of duration·rate samples, or an error when that is not a valid array length; any other delta gives the rise/hold/return shape, of length max(total, rise+return) |
| AdjustThermal.PhasedWaveform | static/adjust_thermal.mjs:56-84 | the three loops produce the rise/hold/return shape, of length max(total, rise+return) when both phases are non-negative |
| AdjustThermal.RisePhase | static/adjust_thermal.mjs:67-69 | the first loop writes delta·i/rise for each rise sample |
| AdjustThermal.HoldPhase | static/adjust_thermal.mjs:72-74 | the second loop appends hold samples equal to delta |
| AdjustThermal.ReturnPhase | static/adjust_thermal.mjs:77-79 | the third loop appends delta·(1 − i/return) for each return sample |
| AdjustThermal.PaddingNeverRuns | static/adjust_thermal.mjs:82-84 | the rise, hold and return phases already fill the total length, so the padding loop adds nothing |
| AdjustThermal.WaveformWithinDelta | static/adjust_thermal.mjs:53-87 | every sample of the waveform lies between 0 and delta |
| AdjustThermal.WaveformRisesLinearly | static/adjust_thermal.mjs:67-74 | the waveform starts at 0, climbs by delta/rise per sample and holds at delta after the rise |
| AdjustThermal.MaxStep | static/adjust_thermal.mjs:101-111 | for a non-negative duration and sample rate, the per-sample step bound derived from the fitted slope is never negative |
| AdjustThermal.GradientLimited | static/adjust_thermal.mjs:98-125 | the limited signal has the input's length and keeps its first sample |
| AdjustThermal.LimitStep | static/adjust_thermal.mjs:114-121 | a step within the bound chosen for its direction is kept; with non-negative bounds the clipped sample lies between the previous and the drawn sample and moves at most the bound |
| AdjustThermal.LimitStepWithin | static/adjust_thermal.mjs:114-121 | after clipping, each step is within the bound chosen for its direction |
| AdjustThermal.LimitStepKeepsBoundedStep | static/adjust_thermal.mjs:114-121 | a step already within its bound is left unchanged |
| AdjustThermal.GradientLimitedPrefix | static/adjust_thermal.mjs:113-122 | limiting a prefix gives the prefix of the limited signal |
| AdjustThermal.GradientLimitedRecurrence | static/adjust_thermal.mjs:114-121 | each output sample is the clip of the input sample against the previous output sample |
| AdjustThermal.GradientLimitedBoundsSteps | static/adjust_thermal.mjs:98-125 | every step of the limited signal is within its bound |
| AdjustThermal.GradientLimitedFixedPoint | static/adjust_thermal.mjs:98-125 | a signal whose steps are already within their bounds is returned unchanged |
| AdjustThermal.GradientLimitedIdempotent | static/adjust_thermal.mjs:98-125 | limiting twice gives the same signal as limiting once |
| AdjustThermal.ClipSample | static/adjust_thermal.mjs:114-121 | the array cell i becomes its clip against cell i−1 and no other cell changes |
| AdjustThermal.LimitGradientByDelta | static/adjust_thermal.mjs:98-125 | the in-place loop over the copied samples returns the limited signal specified by GradientLimited |
| GenerateSignal.LinearMap | static/generate-signal.mjs:61-63 | a value inside the original range maps inside the new range |
| GenerateSignal.LinearMapEndpoints | static/generate-signal.mjs:61-63 | the original endpoints map to the new endpoints |
| GenerateSignal.LinearMapAffine | static/generate-signal.mjs:61-63 | differences scale by (newMax − newMin)/(origMax − origMin) |
| GenerateSignal.LinearMapRoundTrip | static/generate-signal.mjs:61-63 | mapping to the new range and back returns the original value |
| GenerateSignal.MapFrequency | static/generate-signal.mjs:28-30 | an envelope value in range maps to a frequency in [50, 500] Hz |
| GenerateSignal.MapThermal | static/generate-signal.mjs:38-40 | an envelope value in range maps to a temperature offset in [−6, 6] degrees |
| GenerateSignal.InvMapThermal | static/generate-signal.mjs:48-50 | an offset in [−6, 6] maps back into the envelope range |
| GenerateSignal.ThermalMapsInverse | static/generate-signal.mjs:38-50 | map_thermal and inv_map_thermal are mutually inverse, with 0 ↦ −6 and 1 ↦ 6 |
| GenerateSignal.ThermalMapsClosedForm | static/generate-signal.mjs:38-50 | on [0, 1] the maps are 12v − 6 and (d + 6)/12 |
| GenerateSignal.InterpIndices | static/generate-signal.mjs:65-72 | the floor and ceiling indices are valid, ordered and at most one apart |
| GenerateSignal.LinterpIndex | static/generate-signal.mjs:65-72 | the interpolated value lies between the two neighbouring samples |
| GenerateSignal.LinterpAtIntegralIndex | static/generate-signal.mjs:65-72 | at an integral position the interpolation returns that sample exactly |
| GenerateSignal.LinterpEnds | static/generate-signal.mjs:65-72 | position 0 gives the first sample and 1 gives the last |
| GenerateSignal.LinterpWithin | static/generate-signal.mjs:65-72 | the interpolation stays within any bounds of the whole envelope |
| GenerateSignal.LinterpConstant | static/generate-signal.mjs:65-72 | an envelope holding one value interpolates to that value at every position |
| GenerateSignal.LPerc | static/generate-signal.mjs:101-102 | the sampling position of output sample i lies in [0, active fraction) |
| GenerateSignal.GenerateSignal | static/generate-signal.mjs:80-127 | a total-duration mismatch, then an active-duration mismatch, then a negative length, are each reported exactly when they occur, that is exactly when DurationError names one; otherwise both channels have floor(active·rate) samples, sample by sample as specified, and a zero length gives two empty channels whatever the total |
| GenerateSignal.OutputLengthSign | static/generate-signal.mjs:96-97 | the sample count is negative exactly when the duration is |
| GenerateSignal.SharedDurationError | static/generate-signal.mjs:85-97 | canvases sharing one total and active duration make generate_signal throw exactly when that duration is negative, and then with the RangeError of the array allocation |
| GenerateSignal.VibrationChannel | static/generate-signal.mjs:99-112 | the loop carrying the phase accumulator yields exactly the specified vibration samples |
| GenerateSignal.VibStep | static/generate-signal.mjs:100-111 | one loop step advances the phase to the next accumulated value and emits the specified sample |
| GenerateSignal.ThermalChannel | static/generate-signal.mjs:114-124 | the loop yields exactly the interpolated and mapped thermal samples |
| GenerateSignal.PhaseIncreases | static/generate-signal.mjs:103-108 | with frequency values in [0, 1], the phase accumulator strictly increases at every sample |
| GenerateSignal.PhaseStrictlyMonotone | static/generate-signal.mjs:99-112 | the accumulated phase is strictly increasing over all sample indices |
| GenerateSignal.PhaseDeltaBounds | static/generate-signal.mjs:103-108 | each phase step lies between 2π·50/rate and 2π·500/rate |
| GenerateSignal.ConstantFrequencyPhase | static/generate-signal.mjs:99-112 | with a constant frequency envelope v, the phase after k samples is k·2π·map_frequency(v)/10000 |
| GenerateSignal.ThermalSampleInRange | static/generate-signal.mjs:114-124 | with thermal envelope values in [0, 1], every thermal sample is in [−6, 6] |
| GenerateSignal.VibSampleBounded | static/generate-signal.mjs:99-112 | with amplitudes in [0, 1] and a sine bounded by 1, every vibration sample is in [−1, 1] |
| DrawCanvas.Clamp01 | static/drawcanvas.mjs:147-148 | the clamped mouse fraction is in [0, 1] and equals the input when that already is |
| DrawCanvas.SampleIndex | static/drawcanvas.mjs:150-151 | a fraction in [0, 1] gives an index in 0..150, so 150 itself is reachable |
| DrawCanvas.ClampedSampleIndex | static/drawcanvas.mjs:150-151 | the corrected index is always inside the 150-sample array and agrees with floor(x·150) whenever that is |
| DrawCanvas.PaintFraction | static/drawcanvas.mjs:158 | the interpolation fraction of each painted index lies in [0, 1) and is 0 at the low end |
| DrawCanvas.PaintValue | static/drawcanvas.mjs:158-159 | the painted value lies between the two stroke heights, starts at the low end's height and never quite reaches the other height |
| DrawCanvas.Painted | static/drawcanvas.mjs:157-161 | the stroke rewrites exactly the indices between its ends, each with a value between the end heights |
| DrawCanvas.PaintDirection | static/drawcanvas.mjs:154-161 | strokes painted in either direction give the same samples unless both ends fall on one index, where the later height wins |
| DrawCanvas.PaintFromLength | static/drawcanvas.mjs:157-161 | the loop as written grows the array exactly when the high index is past its end |
| DrawCanvas.PaintFromAgrees | static/drawcanvas.mjs:157-161 | in bounds, the loop as written paints exactly the specified values |
| DrawCanvas.PaintAsWrittenInRange | static/drawcanvas.mjs:157-161 | in bounds, the loop as written equals the specified stroke |
| DrawCanvas.PaintGrowsArray | static/drawcanvas.mjs:147-161 | a stroke ending at the right edge writes index 150 and leaves the array 151 long |
| DrawCanvas.SlopeFold | static/drawcanvas.mjs:170-186 | the filtered output has one sample per input sample |
| DrawCanvas.SlopeFoldPrefix | static/drawcanvas.mjs:176-183 | the filter is causal: a prefix of the input gives the prefix of the output |
| DrawCanvas.SlopeFoldRecurrence | static/drawcanvas.mjs:175-182 | each output sample is the callback applied to the previous output sample (the initial value first) and the input sample |
| DrawCanvas.SlopeFoldUnique | static/drawcanvas.mjs:175-182 | any sequence obeying that recurrence is the filtered output |
| DrawCanvas.OutputSamples | static/drawcanvas.mjs:170-171 | without a callback the output is a copy of the input |
| DrawCanvas.RandomBandBounds | static/drawcanvas.mjs:100-107 | the random band writes only valid indices and, when not empty, starts at floor(150·low) |
| DrawCanvas.EnvelopeCanvas.constructor | static/drawcanvas.mjs:83-95 | a new canvas is filled with its initial value, has no callback, is not pressed and has 10 s durations |
| DrawCanvas.EnvelopeCanvas.SetMaxSlopeCallback | static/drawcanvas.mjs:88 | installs the callback and changes nothing else |
| DrawCanvas.EnvelopeCanvas.OnMouseDown | static/drawcanvas.mjs:133-138 | presses the canvas and records the mouse position fractions, with y measured from the bottom |
| DrawCanvas.EnvelopeCanvas.OnMouseUp | static/drawcanvas.mjs:139-141 | releases the canvas and changes nothing else |
| DrawCanvas.EnvelopeCanvas.OnMouseMove | static/drawcanvas.mjs:142-169 | while pressed, paints the stroke from the last to the current position and records the clamped position; when both ends index inside the array the result is exactly the loop as written, otherwise the indices are the corrected ones of Findings row 1; when released, changes nothing |
| DrawCanvas.EnvelopeCanvas.PaintStroke | static/drawcanvas.mjs:157-161 | the in-place loop leaves the samples equal to the specified stroke |
| DrawCanvas.EnvelopeCanvas.GetOutputSamples | static/drawcanvas.mjs:170-186 | returns the input filtered by the callback from the initial value, or a copy when there is none |
| DrawCanvas.EnvelopeCanvas.GetInputSamples | static/drawcanvas.mjs:209-211 | returns a copy of the 150 input samples |
| DrawCanvas.EnvelopeCanvas.ResetSamplesTo | static/drawcanvas.mjs:279-282 | every sample takes the given value |
| DrawCanvas.EnvelopeCanvas.FillRandomSamples | static/drawcanvas.mjs:100-108 | the samples in the random band take 0.2 + 0.8·r and all others are kept |
| DrawCanvas.EnvelopeCanvas.SetTotalDuration | static/drawcanvas.mjs:194-198 | sets both the total and the active duration |
| DrawCanvas.EnvelopeCanvas.SetActiveDuration | static/drawcanvas.mjs:202-205 | sets the active duration and keeps the total |
| DrawCanvas.EnvelopeCanvas.GetTotalDuration | static/drawcanvas.mjs:199-201 | returns the total duration |
| DrawCanvas.EnvelopeCanvas.GetActiveDuration | static/drawcanvas.mjs:206-208 | returns the active duration |
| MainPage.ClampDelta | static/main.mjs:64 | the clamped change lies within the bounds, is the requested change when that fits, and lies between 0 and the request when the bounds straddle 0 |
| MainPage.StepFromScale | static/main.mjs:66-67 | applying a change of d degrees moves the envelope value by d/12 |
| MainPage.StepByDesired | static/main.mjs:58-67 | applying the full requested change lands on the requested sample |
| MainPage.StepByPart | static/main.mjs:58-67 | applying part of the requested change lands between the previous and the requested sample |
| MainPage.BoundsStraddleZero | static/main.mjs:61-63 | for a previous sample in [0, 1] the downward bound is ≤ 0 ≤ the upward bound |
| MainPage.CallbackExactWithinBounds | static/main.mjs:57-69 | a request within both bounds is returned unchanged |
| MainPage.CallbackMovesToward | static/main.mjs:57-69 | the callback's result always lies between the previous and the requested sample |
| MainPage.ThermalSlopeCallback | static/main.mjs:57-69 | measured in degrees the callback's step lies within [fall bound, rise bound] whenever that interval is not empty, and the result lies between the previous and the drawn sample when the interval contains 0 |
| MainPage.ThermalOutputInRange | static/main.mjs:57-69 | filtering an envelope in [0, 1] through the callback keeps every output sample in [0, 1] |
| MainPage.ThermalOutputStepBounded | static/main.mjs:57-69 | every step of the filtered thermal envelope, in degrees, lies within the fall and rise bounds computed from the sample it starts at |
| MainPage.SubmitProblems | static/main.mjs:285-322 | the submission is refused exactly when some check fails, and each warning appears exactly when its own condition holds |
| MainPage.NextTrial | static/main.mjs:378-385 | the counter advances by one and wraps to 0 past the trial count |
| MainPage.ResubmitNeedsAction | static/main.mjs:266-392 | of two submits where the first one's response arrives before the second click, the second is sent exactly when the first was sent and its save failed: a refusal clears "played", a throw repeats, a successful save clears the sliders |
| MainPage.OverlappingResubmit | static/main.mjs:266-392 | of two submits with no response in between, the second is sent exactly when the first was, leaving two requests under way |
| MainPage.Session.constructor | static/main.mjs:8-10 | a new session has not played, has no changes, no touched slider or radio choice, no request under way, and submit is enabled |
| MainPage.Session.InstallThermalCallback | static/main.mjs:57-69 | installs the thermal slope callback on the thermal canvas only, keeping its durations, initial value and mouse state |
| MainPage.Session.OnDurationInput | static/main.mjs:70-75 | sets the total and the active duration of all three canvases and keeps their initial values, callbacks and mouse state; afterwards the signal can be generated exactly when the duration is not negative |
| MainPage.Session.OnCanvasInput | static/main.mjs:79-84 | marks the signal as changed exactly when generating the full-duration signal does not throw, and keeps everything else |
| MainPage.Session.OnPlaySignal | static/main.mjs:187-189 | marks the signal as played and unchanged |
| MainPage.Session.OnResetSignal | static/main.mjs:225-235 | refills all three canvases with 0.5 and resets their durations, keeping their initial values, callbacks and mouse state; the signal is marked as changed exactly when the duration is not negative, since otherwise update_vibration_np throws first |
| MainPage.Session.TouchSlider | static/main.mjs:132-136 | marks one slider as touched |
| MainPage.Session.SetForm | static/main.mjs:271-273 | records the radio choices and the body sites |
| MainPage.Session.OnSubmit | static/main.mjs:266-350 | refuses with exactly the failing checks and clears "played"; an accepted submission is sent exactly when generate_signal does not throw, adding one pending request; the click never changes the form or the trial |
| MainPage.Session.OnSaveResponse | static/main.mjs:351-389 | a successful response clears the sliders and radios and advances the trial, disabling submit for good past the trial count; a failed one keeps the form |
| NpWaveformCanvas.SeqMin | static/np-waveform-canvas.mjs:117 | Math.min over a slice is an element of it and no larger than any element |
| NpWaveformCanvas.SeqMax | static/np-waveform-canvas.mjs:116 | Math.max over a slice is an element of it and no smaller than any element |
| NpWaveformCanvas.MeanBetween | static/np-waveform-canvas.mjs:171 | the mean of a non-empty chunk lies between its minimum and maximum |
| NpWaveformCanvas.MeanWithin | static/np-waveform-canvas.mjs:171 | the mean stays within any bounds of the chunk |
| NpWaveformCanvas.ChunkStart | static/np-waveform-canvas.mjs:166-168 | every chunk boundary is a valid slice index |
| NpWaveformCanvas.ChunksPartition | static/np-waveform-canvas.mjs:164-169 | the boundaries start at 0, end at the length and never decrease |
| NpWaveformCanvas.Chunk | static/np-waveform-canvas.mjs:166-169 | each chunk is the slice between consecutive boundaries |
| NpWaveformCanvas.ChunksPrefix | static/np-waveform-canvas.mjs:164-169 | the first k chunks concatenate to the array up to boundary k |
| NpWaveformCanvas.ChunksCover | static/np-waveform-canvas.mjs:164-169 | the chunks concatenate to the whole array, with no element lost or repeated |
| NpWaveformCanvas.ChunkAverage | static/np-waveform-canvas.mjs:171 | an empty chunk averages to 0, any other to a value between its extremes |
| NpWaveformCanvas.DownsampleArray | static/np-waveform-canvas.mjs:162-174 | the result has the target length and holds each chunk's average |
| NpWaveformCanvas.ColormapGreenAlpha | static/np-waveform-canvas.mjs:150-154 | the alpha as written ranges over [0.2, 1.1] |
| NpWaveformCanvas.ColormapGreenAlphaOverflows | static/np-waveform-canvas.mjs:151-152 | the alpha as written exceeds 1 exactly when the norm exceeds 8/9, reaching 1.1 at norm 1 |
| NpWaveformCanvas.ColormapGreenAlphaIntended | static/np-waveform-canvas.mjs:150-154 | the corrected alpha lies in [0.1, 1], is 0.1 at or below 0 and 1 at or above 1, and is exactly 0.1 below the alpha as written |
| NpWaveformCanvas.ColormapGreenAlphaMonotone | static/np-waveform-canvas.mjs:150-154 | a higher frequency never gets a lighter colour |
| NpWaveformCanvas.ColumnExtent | static/np-waveform-canvas.mjs:115-117 | a column has an extent exactly when its slice is non-empty, and then min ≤ max |
| NpWaveformCanvas.ColumnAlpha | static/np-waveform-canvas.mjs:110-123 | a column is coloured exactly when frequencies are given, with the corrected alpha in [0.1, 1], which is 0.1 below the alpha as written for the chunk's average |
| NpWaveformCanvas.DrawColumns | static/np-waveform-canvas.mjs:114-129 | the loop draws width − 1 columns, each with its slice's extent and its corrected colour |
| NpWaveformCanvas.WaveformCanvas.constructor | static/np-waveform-canvas.mjs:95-96 | a new canvas has no stored waveform or frequencies |
| NpWaveformCanvas.WaveformCanvas.DrawWaveform | static/np-waveform-canvas.mjs:94-130 | stores its arguments; draws nothing without samples, and otherwise draws every column with its extent and the corrected colour of its downsampled frequency |
| PyGenerateSignal.MapFrequency | play_signal/generate_signal.py:18-25 | the linear branch equals the browser's map_frequency, sends the ends of the range to 50 and 500 Hz and values inside it into [50, 500] |
| PyGenerateSignal.LinterpBetweenNeighbours | play_signal/generate_signal.py:28-33 | it reads valid neighbouring indices and lies between their values |
| PyGenerateSignal.CoeffIndex | play_signal/generate_signal.py:56 | for a frequency in [50, 500] the coefficient index lies in 0..450 |
| PyGenerateSignal.Perc | play_signal/generate_signal.py:48 | the sampling position i/total lies in [0, 1) |
| PyGenerateSignal.FreqInRange | play_signal/generate_signal.py:49-56 | with frequency values in [0, 1], every instantaneous frequency is in [50, 500] and its coefficient index is valid |
| PyGenerateSignal.OutputFitsTotal | play_signal/generate_signal.py:42-43 | a duration within the total never yields more samples than the total |
| PyGenerateSignal.GenerateSignal | play_signal/generate_signal.py:36-58 | a duration beyond the total raises exactly then, a negative length raises exactly then, and otherwise the result holds int(duration·10000) specified samples and the duration used |
| PyGenerateSignal.SampleStep | play_signal/generate_signal.py:46-56 | one loop step advances the phase and emits amplitude·sin(phase)·coefficient as specified |
| PyGenerateSignal.VibrationLoop | play_signal/generate_signal.py:46-56 | the loop yields exactly the specified samples |
| PyGenerateSignal.ConstantFrequencyPhase | play_signal/generate_signal.py:46-56 | with a constant frequency envelope v, the phase after k samples is k·2π·map_frequency(v)/10000 |
| RiseReturn.FirstKept | play_signal/compute_rising_return.py:26-47 | the mask-then-first-row selection returns the first kept row, and none exactly when no row is kept |
| RiseReturn.FirstKeptFindsFirst | play_signal/compute_rising_return.py:26-47 | the first kept row is unique, so the selection finds exactly it |
| RiseReturn.ElapsedToFirst | play_signal/compute_rising_return.py:32-47 | the elapsed time to the first kept row is non-negative, and absent exactly when no row is kept |
| RiseReturn.RiseAndReturnTimes | play_signal/compute_rising_return.py:15-49 | without a stimulus both times are absent, and every reported time is non-negative |
| RiseReturn.NoStimulus | play_signal/compute_rising_return.py:22-24 | the result is (0, None, None) exactly when every Delta is zero |
| RiseReturn.IndexErrorIff | play_signal/compute_rising_return.py:26-27 | the function fails exactly when a stimulus starts and no later row has Delta back at zero |
| RiseReturn.RiseTimeIsFirstCrossing | play_signal/compute_rising_return.py:26-38 | main_delta is the first non-zero Delta, and the rise time is the time to the first row at or after the start within the tolerance of the target, absent when there is none |
| RiseReturn.ReturnTimeIsFirstCrossing | play_signal/compute_rising_return.py:27-47 | the return time is the time from the first later zero-Delta row to the first row back within the tolerance of the baseline, absent when there is none |
| UserInfo.Appended | user_info.py:36-45 | appending writes the header first into an empty file and adds exactly one record |
| UserInfo.FirstWithId | user_info.py:15-23 | the scan stops at the first record with the id, and finds none exactly when no record has it |
| UserInfo.FirstWithIdFinds | user_info.py:15-23 | the first record with the id is unique, so the scan finds exactly it |
| UserInfo.CountTrials | user_info.py:26-31 | the trial count is at most the number of entries and is 0 exactly when no entry is an all-digit directory |
| UserInfo.TrialNumber | user_info.py:26-33 | the trial number is at least 1, and 1 for a user without a directory |
| UserInfo.RegisteredUserIsFound | user_info.py:14-45 | after a new user is appended, the next scan for that id finds the new row |
| UserInfo.SaveData.constructor | user_info.py:6-7 | the registry starts from the given table and directories |
| UserInfo.SaveData.SaveUserInfo | user_info.py:5-47 | an id registered under another name is refused with nothing changed; otherwise it returns the trial number and the stored gender, creates a missing directory, and appends exactly one row for a new user |

## Left out

- Rendering is not modelled: canvas drawing, DOM labels, alerts, animations,
  the playhead, resize observers and the custom-element attributes.
- Network and I/O are not modelled: `fetch` calls, server-sent events, the
  Flask server (`app.py`), the serial and DAQ playback scripts
  (`play_signal/play_vib_ther_signal.py`, `play_signal/arduino_delta_to_0.py`),
  `data_preprocess.py` and `static/util.mjs`. These are not part of this
  model. The response to the browser's result fetch is the separate event
  `MainPage.Session.OnSaveResponse`, whose outcome is a boolean parameter.
- Floating point is not modelled: reals replace IEEE doubles, `Float32Array`
  storage, `toFixed(2)` rounding and NaN. A NaN square root is modelled as
  the 0 the source returns for it.
- Randomness is not modelled: `Math.random` draws are parameters of
  `FillRandomSamples`. The square root and the sine are parameters as well.
- `generate_signal_with_thermal` (play_signal/generate_signal.py:61-75) is
  not modelled. It relies on NumPy interpolation and resampling outside
  this model.
- The calibration file `Coeff.txt` is not read. The coefficient table is a
  parameter of length 451, which matches the load-time assertion.
- PyGenerateSignal.MapFrequency: only the linear branch (`logscale=False`)
  is modelled. The log-scale branch needs `np.log10` and real powers, which
  this model does not define. It is the branch playback uses:
  play_signal/play_vib_ther_signal.py:101-106 passes `logscale=True` through
  `generate_signal_with_thermal`.
- PyGenerateSignal.GenerateSignal: modelled for `logscale=False` only, for
  the same reason.
- `UserInfo.IsDigits`: `str.isdigit` is modelled on ASCII digits only.
- Missing `users.csv`: a missing file reads like an empty one.
- Header-less `users.csv`: not modelled. `SaveUserInfo` requires the
  header-first form that the function itself writes.
- `RiseReturn`: pandas type coercion of the log columns is not modelled.
- NpWaveformCanvas.ColumnAlpha, NpWaveformCanvas.DrawColumns and
  NpWaveformCanvas.WaveformCanvas.DrawWaveform colour the columns with the
  corrected alpha of Findings row 2 (`0.1 + 0.9·clamp`). The code as
  written draws `0.2 + 0.9·clamp`, exactly 0.1 higher, as the
  ColumnAlpha contract states; the model does not draw that colour.
- `NpWaveformCanvas.ColumnExtent`: the `±Infinity` that `Math.min` and
  `Math.max` give for an empty slice is modelled as no extent.
- DrawCanvas.PaintAsWritten requires a non-negative low index. A negative
  index would set a property on the JavaScript array rather than an
  element. The current mouse fraction is clamped, but the fraction recorded
  by `on_mouse_down` (static/drawcanvas.mjs:136) is not, so a press left of
  the canvas followed by a move does produce one.
- DrawCanvas.EnvelopeCanvas.OnMouseMove paints with ClampedSampleIndex, the
  corrected indices of Findings row 1. It agrees with the loop as written
  whenever both stroke ends index inside the array. It does not capture the
  other strokes: a stroke reaching the right edge, which the source paints
  up to index 150 with denominator `xhigh − xlow + 1e-6` taken from 150 and
  which grows the array (see DrawCanvas.PaintGrowsArray), and a stroke from
  an unclamped mouse-down position outside [0, 1), which the model clamps
  into the array.
- `DrawCanvas.EnvelopeCanvas.constructor` starts from the filled array. The
  source fills it only when the element is connected, so the array before
  that, with undefined entries, is not modelled.
- `GenerateSignal.LinearMap` requires `origMin != origMax`. The source
  divides by zero otherwise.
- GenerateSignal.GenerateSignal requires an active duration within the
  total unless the full duration is forced. Otherwise the active fraction
  exceeds 1 and the source reads past the envelope's end, where JavaScript
  yields `undefined` and the samples become NaN. Every handler of the page
  sets both durations together, so this does not arise there.
- AdjustThermal.LimitGradientByDelta (and AdjustThermal.MaxStep) require a
  non-negative duration and sample rate. `limit_gradient_by_delta` is
  neither exported nor called anywhere in the repository, so no caller
  fixes these inputs. On the excluded inputs the step bound is negative or
  −Infinity. The clip then moves every clipped sample backwards, away from
  the drawn value, or to ±Infinity. The model does not capture this.
- `PyGenerateSignal.GenerateSignal` requires frequency samples in [0, 1]. On
  other values the coefficient index could be negative (wrapping in Python)
  or raise `IndexError`.
- PyGenerateSignal.GenerateSignal also requires non-empty amplitude and
  frequency envelopes. Python accepts empty ones: it returns an empty
  signal when `int(duration·10000)` is 0, and raises `IndexError` in
  `linterp_index` (play_signal/generate_signal.py:33) once a sample has to
  be computed. Neither outcome is modelled.
- The zero-padding loop of `generateThermalWaveform`
  (static/adjust_thermal.mjs:82-84) is not written out.
  `AdjustThermal.PaddingNeverRuns` shows that it never appends a sample.

`compute_max_thermal_change_at_temp_for_time` is not monotone in time. For
a concave fit (c < 0),
`AdjustThermal.MaxChangeCollapsesPastCriticalTime` shows that the change is
positive before the radicand turns negative and falls to 0 after it.
`AdjustThermal.MaxChangeMonotoneInTime` shows that more time never gives a
smaller change while the radicand stays non-negative.

## Findings

| source | as written | input that shows it | evidently intended | confidence | as-written member | corrected member |
|---|---|---|---|---|---|---|
| static/drawcanvas.mjs:147-161 | `Math.floor(x_perc * NUM_SAMPLES)` with `x_perc` clamped to [0, 1] yields index 150, and the loop stores at it | a mouse-move with the mouse at or beyond the right edge while pressed | indices stay within the 150-sample array | not executed | DrawCanvas.PaintGrowsArray | DrawCanvas.ClampedSampleIndex |
| static/np-waveform-canvas.mjs:151-152 | `0.2 + 0.9 * clamp` gives alpha in [0.2, 1.1], against the stated range 0.1 to 1 | any frequency value above 8/9 of the range, e.g. norm 1 giving 1.1 | alpha `0.1 + 0.9 * clamp`, within [0.1, 1] | not executed | NpWaveformCanvas.ColormapGreenAlphaOverflows | NpWaveformCanvas.ColormapGreenAlphaIntended |
