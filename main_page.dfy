/**
 * The page logic of static/main.mjs: the thermal slope-limit callback that
 * is installed on the thermal envelope canvas, and the flags that decide
 * whether a rating may be submitted.
 *
 * Network requests (playing a signal, saving a result) and all drawing are
 * outside the model; the response to a save request is a separate event
 * whose outcome is a parameter.
 */
module MainPage {
  import opened JsMath
  import opened Wrappers
  import opened AdjustThermal
  import opened GenerateSignal
  import opened DrawCanvas

  /** The number of trials after which submitting is switched off. */
  const TARGET_COUNT: int := 5

  /** The fitted rise curve [0, 0.944676, −0.0563504] the callback uses for both bounds. */
  const RISE_FIT: Coeffs := Coeffs(0.0, 0.944676, -0.0563504)

  // ---------------------------------------------------------------------------
  // The thermal slope-limit callback

  /** Math.max(Math.min(delta, pos), neg) */
  function ClampDelta(delta: real, pos: real, neg: real): (r: real)
    ensures neg <= pos ==> neg <= r <= pos
    ensures neg <= delta <= pos ==> r == delta
    ensures neg <= 0.0 <= pos ==> Between(r, 0.0, delta)
  {
    Max(Min(delta, pos), neg)
  }

  /** The largest warming step from a sample, in degrees, over one sample period. */
  function RiseBound(sqrt: real -> real, prevSamp: real, secondsPerSample: real): real
  {
    MaxThermalChange(sqrt, RISE_FIT, MapThermal(prevSamp, 0.0, 1.0), secondsPerSample, false).value
  }

  /** The largest cooling step from a sample, in degrees (a non-positive number). */
  function FallBound(sqrt: real -> real, prevSamp: real, secondsPerSample: real): real
  {
    MaxThermalChange(sqrt, RISE_FIT, MapThermal(prevSamp, 0.0, 1.0), secondsPerSample, true).value
  }

  /** The change in degrees the drawn sample asks for. */
  function DesiredDegrees(prevSamp: real, desiredSamp: real): real
  {
    MapThermal(desiredSamp, 0.0, 1.0) - MapThermal(prevSamp, 0.0, 1.0)
  }

  /** The sample reached by moving `change` degrees from prevSamp: inv_map_thermal(prev° + change). */
  function StepFrom(prevSamp: real, change: real): real
  {
    InvMapThermal(MapThermal(prevSamp, 0.0, 1.0) + change, 0.0, 1.0)
  }

  /**
   * The max_slope_callback of the thermal canvas: the requested change in
   * degrees, clamped into [FallBound, RiseBound], added to the previous
   * sample and mapped back to the normalised range.  Measured in degrees the
   * step it takes lies within [FallBound, RiseBound]; when that interval
   * contains 0 the result lies between the previous and the drawn sample.
   */
  function ThermalSlopeCallback(sqrt: real -> real, prevSamp: real, desiredSamp: real, secondsPerSample: real): (r: real)
    ensures var rise := RiseBound(sqrt, prevSamp, secondsPerSample);
            var fall := FallBound(sqrt, prevSamp, secondsPerSample);
            fall <= rise ==> fall <= MapThermal(r, 0.0, 1.0) - MapThermal(prevSamp, 0.0, 1.0) <= rise
    ensures var rise := RiseBound(sqrt, prevSamp, secondsPerSample);
            var fall := FallBound(sqrt, prevSamp, secondsPerSample);
            fall <= 0.0 <= rise ==> Between(r, prevSamp, desiredSamp)
  {
    var change := ClampDelta(DesiredDegrees(prevSamp, desiredSamp),
                             RiseBound(sqrt, prevSamp, secondsPerSample),
                             FallBound(sqrt, prevSamp, secondsPerSample));
    ThermalMapsInverse(prevSamp, MapThermal(prevSamp, 0.0, 1.0) + change);
    ClampedStepBetween(prevSamp, desiredSamp, RiseBound(sqrt, prevSamp, secondsPerSample),
                       FallBound(sqrt, prevSamp, secondsPerSample));
    StepFrom(prevSamp, change)
  }

  /** Moving `change` degrees moves the normalised sample by change/12. */
  lemma StepFromScale(prevSamp: real, change: real)
    ensures StepFrom(prevSamp, change) == prevSamp + change / 12.0
  {
    ThermalMapsClosedForm(prevSamp, MapThermal(prevSamp, 0.0, 1.0) + change);
  }

  /** Moving by the whole requested change lands exactly on the drawn sample. */
  lemma StepByDesired(prevSamp: real, desiredSamp: real)
    ensures StepFrom(prevSamp, DesiredDegrees(prevSamp, desiredSamp)) == desiredSamp
  {
    StepFromScale(prevSamp, DesiredDegrees(prevSamp, desiredSamp));
    ThermalMapsClosedForm(prevSamp, 0.0);
    ThermalMapsClosedForm(desiredSamp, 0.0);
  }

  /** Moving by part of the requested change stops between the two samples. */
  lemma StepByPart(prevSamp: real, desiredSamp: real, change: real)
    requires Between(change, 0.0, DesiredDegrees(prevSamp, desiredSamp))
    ensures Between(StepFrom(prevSamp, change), prevSamp, desiredSamp)
  {
    StepFromScale(prevSamp, change);
    ThermalMapsClosedForm(prevSamp, 0.0);
    ThermalMapsClosedForm(desiredSamp, 0.0);
  }

  /** Clamping the requested change into an interval around 0 stops between the two samples. */
  lemma ClampedStepBetween(prevSamp: real, desiredSamp: real, pos: real, neg: real)
    ensures neg <= 0.0 <= pos ==>
      Between(StepFrom(prevSamp, ClampDelta(DesiredDegrees(prevSamp, desiredSamp), pos, neg)), prevSamp, desiredSamp)
  {
    if neg <= 0.0 <= pos {
      StepByPart(prevSamp, desiredSamp, ClampDelta(DesiredDegrees(prevSamp, desiredSamp), pos, neg));
    }
  }

  /**
   * From a sample on the canvas (so within ±6 degrees) and a non-negative
   * sample period, the cooling bound is at most 0 and the warming bound at
   * least 0, so the clamp interval is never empty.
   */
  lemma BoundsStraddleZero(sqrt: real -> real, prevSamp: real, secondsPerSample: real)
    requires IsSqrt(sqrt) && 0.0 <= prevSamp <= 1.0 && 0.0 <= secondsPerSample
    ensures FallBound(sqrt, prevSamp, secondsPerSample) <= 0.0 <= RiseBound(sqrt, prevSamp, secondsPerSample)
  {
    var prevDegrees := MapThermal(prevSamp, 0.0, 1.0);
    assert Abs(prevDegrees) <= 6.0;
    MaxChangeSign(sqrt, RISE_FIT, prevDegrees, secondsPerSample);
  }

  /** A requested change within the bounds is applied exactly: the callback returns the drawn sample. */
  lemma CallbackExactWithinBounds(sqrt: real -> real, prevSamp: real, desiredSamp: real, secondsPerSample: real)
    requires FallBound(sqrt, prevSamp, secondsPerSample) <= DesiredDegrees(prevSamp, desiredSamp)
                                                         <= RiseBound(sqrt, prevSamp, secondsPerSample)
    ensures ThermalSlopeCallback(sqrt, prevSamp, desiredSamp, secondsPerSample) == desiredSamp
  {
    StepByDesired(prevSamp, desiredSamp);
  }

  /**
   * Each output moves from the previous sample toward the drawn one and never
   * overshoots it.
   */
  lemma CallbackMovesToward(sqrt: real -> real, prevSamp: real, desiredSamp: real, secondsPerSample: real)
    requires IsSqrt(sqrt) && 0.0 <= prevSamp <= 1.0 && 0.0 <= secondsPerSample
    ensures Between(ThermalSlopeCallback(sqrt, prevSamp, desiredSamp, secondsPerSample), prevSamp, desiredSamp)
  {
    BoundsStraddleZero(sqrt, prevSamp, secondsPerSample);
  }

  /** The callback as installed on the thermal canvas. */
  function ThermalCallback(sqrt: real -> real): SlopeCallback
  {
    (prev, desired, secondsPerSample) => ThermalSlopeCallback(sqrt, prev, desired, secondsPerSample)
  }

  /**
   * The thermal canvas's output view stays in [0, 1] when the drawn samples
   * and the initial value do: every output lies between the previous output
   * and the drawn sample.
   */
  lemma {:induction false} ThermalOutputInRange(sqrt: real -> real, init: real, input: seq<real>, secondsPerSample: real, i: nat)
    requires IsSqrt(sqrt) && 0.0 <= init <= 1.0 && 0.0 <= secondsPerSample
    requires forall k :: 0 <= k < |input| ==> 0.0 <= input[k] <= 1.0
    requires i < |input|
    ensures 0.0 <= SlopeFold(ThermalCallback(sqrt), init, input, secondsPerSample)[i] <= 1.0
  {
    var out := SlopeFold(ThermalCallback(sqrt), init, input, secondsPerSample);
    SlopeFoldRecurrence(ThermalCallback(sqrt), init, input, secondsPerSample, i);
    var prev := if i == 0 then init else out[i - 1];
    if 0 < i {
      ThermalOutputInRange(sqrt, init, input, secondsPerSample, i - 1);
    }
    CallbackMovesToward(sqrt, prev, input[i], secondsPerSample);
  }

  /**
   * Every step of the thermal canvas's output view, measured in degrees, is
   * within the rise and fall bounds computed from the sample it starts at.
   */
  lemma ThermalOutputStepBounded(sqrt: real -> real, init: real, input: seq<real>, secondsPerSample: real, i: nat)
    requires IsSqrt(sqrt) && 0.0 <= init <= 1.0 && 0.0 <= secondsPerSample
    requires forall k :: 0 <= k < |input| ==> 0.0 <= input[k] <= 1.0
    requires i < |input|
    ensures var out := SlopeFold(ThermalCallback(sqrt), init, input, secondsPerSample);
            var prev := if i == 0 then init else out[i - 1];
            && FallBound(sqrt, prev, secondsPerSample) <= MapThermal(out[i], 0.0, 1.0) - MapThermal(prev, 0.0, 1.0)
            && MapThermal(out[i], 0.0, 1.0) - MapThermal(prev, 0.0, 1.0) <= RiseBound(sqrt, prev, secondsPerSample)
  {
    var out := SlopeFold(ThermalCallback(sqrt), init, input, secondsPerSample);
    SlopeFoldRecurrence(ThermalCallback(sqrt), init, input, secondsPerSample, i);
    var prev := if i == 0 then init else out[i - 1];
    if 0 < i {
      ThermalOutputInRange(sqrt, init, input, secondsPerSample, i - 1);
    }
    BoundsStraddleZero(sqrt, prev, secondsPerSample);
  }

  // ---------------------------------------------------------------------------
  // Submission gating

  /** A reason on_submit refuses to send a rating, in the order the checks run. */
  datatype SubmitProblem =
    | NotPlayed          // PLAY was never pressed (or a refused submit cleared it)
    | ChangedSincePlay   // an envelope changed after the last PLAY
    | SliderUntouched    // one of the rating sliders was never moved
    | NoReferral         // no referral option selected
    | NoBodySite         // a body-site label still reads "None"

  /** The body-site label text shown while no site is chosen. */
  const NO_BODY_SITE: string := "None"

  /** The number of rating sliders (roughness, valence, arousal). */
  const SLIDER_COUNT: nat := 3

  predicate AllTouched(slidersTouched: seq<bool>)
  {
    forall k :: 0 <= k < |slidersTouched| ==> slidersTouched[k]
  }

  /**
   * The warnings on_submit raises.  The play check reports either NotPlayed
   * or ChangedSincePlay, never both; the submission is accepted exactly when
   * there is no warning.
   */
  function SubmitProblems(hasPlayed: bool, hasChanged: bool, slidersTouched: seq<bool>, referralSelected: bool,
                          vibrationSite: string, thermalSite: string): (r: seq<SubmitProblem>)
    ensures |r| == 0 <==>
      hasPlayed && !hasChanged && AllTouched(slidersTouched) && referralSelected
      && vibrationSite != NO_BODY_SITE && thermalSite != NO_BODY_SITE
    ensures NotPlayed in r <==> !hasPlayed
    ensures ChangedSincePlay in r <==> hasPlayed && hasChanged
    ensures SliderUntouched in r <==> !AllTouched(slidersTouched)
    ensures NoReferral in r <==> !referralSelected
    ensures NoBodySite in r <==> vibrationSite == NO_BODY_SITE || thermalSite == NO_BODY_SITE
  {
    (if !hasPlayed then [NotPlayed] else if hasChanged then [ChangedSincePlay] else [])
    + (if AllTouched(slidersTouched) then [] else [SliderUntouched])
    + (if referralSelected then [] else [NoReferral])
    + (if vibrationSite != NO_BODY_SITE && thermalSite != NO_BODY_SITE then [] else [NoBodySite])
  }

  /** The trial label after a successful save: one more, back to 0 once past TARGET_COUNT. */
  function NextTrial(trialCurrent: int): (r: int)
    ensures r == 0 <==> trialCurrent + 1 > TARGET_COUNT || trialCurrent + 1 == 0
    ensures 0 <= trialCurrent ==> 0 <= r <= TARGET_COUNT
  {
    if trialCurrent + 1 > TARGET_COUNT then 0 else trialCurrent + 1
  }

  /**
   * The kept configuration of one envelope canvas: its initial y-value, its
   * slope-limit callback and its mouse state.
   */
  twostate predicate SettingsKept(c: EnvelopeCanvas)
    reads c
  {
    && c.initialYValue == old(c.initialYValue) && c.maxSlopeCallback == old(c.maxSlopeCallback)
    && c.mouseDown == old(c.mouseDown) && c.lastXPerc == old(c.lastXPerc) && c.lastYPerc == old(c.lastYPerc)
  }

  /**
   * The module-level state of the page: the three envelope canvases, the
   * play/change flags, the rating form and the trial counter.  pendingSaves
   * counts the /save_result requests whose response has not arrived yet.
   */
  class Session {
    const vibAmpCanvas: EnvelopeCanvas
    const vibFreqCanvas: EnvelopeCanvas
    const thrAmpCanvas: EnvelopeCanvas
    var hasPlayed: bool
    var hasChanged: bool
    var slidersTouched: seq<bool>
    var referral: Option<string>
    var masking: Option<string>
    var vibrationSite: string
    var thermalSite: string
    var trialCurrent: int
    var submitEnabled: bool
    var pendingSaves: nat

    /** The canvases and their sample buffers are all distinct. */
    predicate Valid()
      reads this
    {
      && vibAmpCanvas.Valid() && vibFreqCanvas.Valid() && thrAmpCanvas.Valid()
      && vibAmpCanvas != vibFreqCanvas && vibAmpCanvas != thrAmpCanvas && vibFreqCanvas != thrAmpCanvas
      && vibAmpCanvas.samples != vibFreqCanvas.samples && vibAmpCanvas.samples != thrAmpCanvas.samples
      && vibFreqCanvas.samples != thrAmpCanvas.samples
      && |slidersTouched| == SLIDER_COUNT
    }

    /**
     * generate_signal(forceFullDuration) on the canvases' current durations
     * returns instead of throwing.
     */
    predicate Generates(forceFullDuration: bool)
      reads this, vibAmpCanvas, vibFreqCanvas, thrAmpCanvas
    {
      DurationError(vibAmpCanvas.totalDuration, vibFreqCanvas.totalDuration, thrAmpCanvas.totalDuration,
                    vibAmpCanvas.activeDuration, vibFreqCanvas.activeDuration, thrAmpCanvas.activeDuration,
                    forceFullDuration).None?
    }

    /** The page as loaded: nothing played or changed, the form empty, submitting enabled. */
    constructor(vibAmp: EnvelopeCanvas, vibFreq: EnvelopeCanvas, thrAmp: EnvelopeCanvas,
                vibrationSite: string, thermalSite: string, trialLabel: int)
      requires vibAmp.Valid() && vibFreq.Valid() && thrAmp.Valid()
      requires vibAmp != vibFreq && vibAmp != thrAmp && vibFreq != thrAmp
      requires vibAmp.samples != vibFreq.samples && vibAmp.samples != thrAmp.samples && vibFreq.samples != thrAmp.samples
      ensures Valid()
      ensures vibAmpCanvas == vibAmp && vibFreqCanvas == vibFreq && thrAmpCanvas == thrAmp
      ensures !hasPlayed && !hasChanged && slidersTouched == [false, false, false]
      ensures referral == None && masking == None
      ensures this.vibrationSite == vibrationSite && this.thermalSite == thermalSite
      ensures trialCurrent == trialLabel && submitEnabled && pendingSaves == 0
    {
      vibAmpCanvas := vibAmp;
      vibFreqCanvas := vibFreq;
      thrAmpCanvas := thrAmp;
      hasPlayed := false;
      hasChanged := false;
      slidersTouched := [false, false, false];
      referral := None;
      masking := None;
      this.vibrationSite := vibrationSite;
      this.thermalSite := thermalSite;
      trialCurrent := trialLabel;
      submitEnabled := true;
      pendingSaves := 0;
    }

    /** Installs ThermalSlopeCallback as the thermal canvas's max_slope_callback. */
    method InstallThermalCallback(sqrt: real -> real)
      requires Valid()
      modifies thrAmpCanvas
      ensures Valid()
      ensures thrAmpCanvas.maxSlopeCallback == Some(ThermalCallback(sqrt))
      ensures thrAmpCanvas.totalDuration == old(thrAmpCanvas.totalDuration)
      ensures thrAmpCanvas.activeDuration == old(thrAmpCanvas.activeDuration)
      ensures thrAmpCanvas.initialYValue == old(thrAmpCanvas.initialYValue)
      ensures thrAmpCanvas.mouseDown == old(thrAmpCanvas.mouseDown)
      ensures thrAmpCanvas.lastXPerc == old(thrAmpCanvas.lastXPerc) && thrAmpCanvas.lastYPerc == old(thrAmpCanvas.lastYPerc)
    {
      thrAmpCanvas.SetMaxSlopeCallback(Some(ThermalCallback(sqrt)));
    }

    /**
     * on_duration_input: every canvas gets the typed duration as total and
     * active duration, so the signal can be generated exactly when the
     * duration is not negative.
     */
    method OnDurationInput(duration: real)
      requires Valid()
      modifies vibAmpCanvas, vibFreqCanvas, thrAmpCanvas
      ensures Valid()
      ensures vibAmpCanvas.totalDuration == duration && vibAmpCanvas.activeDuration == duration
      ensures vibFreqCanvas.totalDuration == duration && vibFreqCanvas.activeDuration == duration
      ensures thrAmpCanvas.totalDuration == duration && thrAmpCanvas.activeDuration == duration
      ensures SettingsKept(vibAmpCanvas) && SettingsKept(vibFreqCanvas) && SettingsKept(thrAmpCanvas)
      ensures Generates(true) <==> 0.0 <= duration
      ensures Generates(false) <==> 0.0 <= duration
    {
      vibAmpCanvas.SetTotalDuration(duration);
      vibFreqCanvas.SetTotalDuration(duration);
      thrAmpCanvas.SetTotalDuration(duration);
      SharedDurationError(duration, true);
      SharedDurationError(duration, false);
    }

    /**
     * The "input" listener on every canvas: update_vibration_np runs
     * generate_signal(true) first, and only when that returns does the drawn
     * signal count as changed since the last PLAY.
     */
    method OnCanvasInput()
      modifies this
      ensures hasChanged == (old(hasChanged) || Generates(true))
      ensures hasPlayed == old(hasPlayed)
      ensures slidersTouched == old(slidersTouched) && referral == old(referral) && masking == old(masking)
      ensures vibrationSite == old(vibrationSite) && thermalSite == old(thermalSite)
      ensures trialCurrent == old(trialCurrent) && submitEnabled == old(submitEnabled)
      ensures pendingSaves == old(pendingSaves)
    {
      if Generates(true) {
        hasChanged := true;
      }
    }

    /** on_play_signal: the current envelopes count as played (the flags are set before generating). */
    method OnPlaySignal()
      modifies this
      ensures hasPlayed && !hasChanged
      ensures slidersTouched == old(slidersTouched) && referral == old(referral) && masking == old(masking)
      ensures vibrationSite == old(vibrationSite) && thermalSite == old(thermalSite)
      ensures trialCurrent == old(trialCurrent) && submitEnabled == old(submitEnabled)
      ensures pendingSaves == old(pendingSaves)
    {
      hasChanged := false;
      hasPlayed := true;
    }

    /**
     * on_reset_signal: every canvas takes the typed duration and every sample
     * becomes 0.5; then update_vibration_np runs, and the signal counts as
     * changed only when it returns, that is when the duration is not negative.
     */
    method OnResetSignal(duration: real)
      requires Valid()
      modifies this, vibAmpCanvas, vibFreqCanvas, thrAmpCanvas
      modifies vibAmpCanvas.samples, vibFreqCanvas.samples, thrAmpCanvas.samples
      ensures Valid()
      ensures hasChanged == (old(hasChanged) || 0.0 <= duration)
      ensures hasPlayed == old(hasPlayed)
      ensures slidersTouched == old(slidersTouched) && referral == old(referral) && masking == old(masking)
      ensures vibrationSite == old(vibrationSite) && thermalSite == old(thermalSite)
      ensures trialCurrent == old(trialCurrent) && submitEnabled == old(submitEnabled)
      ensures pendingSaves == old(pendingSaves)
      ensures vibAmpCanvas.totalDuration == duration && vibAmpCanvas.activeDuration == duration
      ensures vibFreqCanvas.totalDuration == duration && vibFreqCanvas.activeDuration == duration
      ensures thrAmpCanvas.totalDuration == duration && thrAmpCanvas.activeDuration == duration
      ensures SettingsKept(vibAmpCanvas) && SettingsKept(vibFreqCanvas) && SettingsKept(thrAmpCanvas)
      ensures forall i :: 0 <= i < NUM_SAMPLES ==>
        vibAmpCanvas.samples[i] == 0.5 && vibFreqCanvas.samples[i] == 0.5 && thrAmpCanvas.samples[i] == 0.5
    {
      vibAmpCanvas.SetTotalDuration(duration);
      vibAmpCanvas.ResetSamplesTo(0.5);
      vibFreqCanvas.SetTotalDuration(duration);
      vibFreqCanvas.ResetSamplesTo(0.5);
      thrAmpCanvas.SetTotalDuration(duration);
      thrAmpCanvas.ResetSamplesTo(0.5);
      SharedDurationError(duration, true);
      if Generates(true) {
        hasChanged := true;
      }
    }

    /** A press on rating slider k marks it as touched. */
    method TouchSlider(k: nat)
      requires Valid() && k < SLIDER_COUNT
      modifies this
      ensures Valid() && slidersTouched == old(slidersTouched)[k := true]
      ensures hasPlayed == old(hasPlayed) && hasChanged == old(hasChanged)
      ensures referral == old(referral) && masking == old(masking)
      ensures vibrationSite == old(vibrationSite) && thermalSite == old(thermalSite)
      ensures trialCurrent == old(trialCurrent) && submitEnabled == old(submitEnabled)
      ensures pendingSaves == old(pendingSaves)
    {
      slidersTouched := slidersTouched[k := true];
    }

    /** The form's radio buttons and body-site labels, as the page's controls set them. */
    method SetForm(referral: Option<string>, masking: Option<string>, vibrationSite: string, thermalSite: string)
      requires Valid()
      modifies this
      ensures Valid()
      ensures this.referral == referral && this.masking == masking
      ensures this.vibrationSite == vibrationSite && this.thermalSite == thermalSite
      ensures hasPlayed == old(hasPlayed) && hasChanged == old(hasChanged) && slidersTouched == old(slidersTouched)
      ensures trialCurrent == old(trialCurrent) && submitEnabled == old(submitEnabled)
      ensures pendingSaves == old(pendingSaves)
    {
      this.referral := referral;
      this.masking := masking;
      this.vibrationSite := vibrationSite;
      this.thermalSite := thermalSite;
    }

    /**
     * A click on submit (on_submit up to the fetch).  A disabled submit button
     * delivers no click.  A refused submission sends nothing and clears
     * hasPlayed.  An accepted one runs generate_signal(); when that throws
     * nothing is sent, otherwise one more /save_result request is under way.
     * The form and the trial counter change only when the response arrives
     * (OnSaveResponse).
     */
    method OnSubmit() returns (problems: seq<SubmitProblem>, sent: bool)
      requires Valid()
      modifies this
      ensures Valid()
      ensures hasChanged == old(hasChanged) && vibrationSite == old(vibrationSite) && thermalSite == old(thermalSite)
      ensures slidersTouched == old(slidersTouched) && referral == old(referral) && masking == old(masking)
      ensures trialCurrent == old(trialCurrent) && submitEnabled == old(submitEnabled)
      ensures !old(submitEnabled) ==> problems == [] && !sent
      ensures old(submitEnabled) ==>
        problems == SubmitProblems(old(hasPlayed), old(hasChanged), old(slidersTouched), old(referral).Some?,
                                   old(vibrationSite), old(thermalSite))
      ensures sent <==> old(submitEnabled) && problems == [] && Generates(false)
      ensures hasPlayed == (old(hasPlayed) && !(old(submitEnabled) && problems != []))
      ensures pendingSaves == old(pendingSaves) + (if sent then 1 else 0)
    {
      if !submitEnabled {
        return [], false;
      }
      problems := SubmitProblems(hasPlayed, hasChanged, slidersTouched, referral.Some?, vibrationSite, thermalSite);
      if problems != [] {
        hasPlayed := false;
        return problems, false;
      }
      if !Generates(false) {
        return problems, false;
      }
      sent := true;
      pendingSaves := pendingSaves + 1;
    }

    /**
     * The response to one pending /save_result request.  On success the
     * sliders and radio buttons are cleared and the trial counter advances,
     * wrapping to 0 and disabling submission once it passes TARGET_COUNT; a
     * failed request (the catch branch) only alerts.
     */
    method OnSaveResponse(succeeded: bool)
      requires Valid() && 0 < pendingSaves
      modifies this
      ensures Valid()
      ensures pendingSaves == old(pendingSaves) - 1
      ensures hasPlayed == old(hasPlayed) && hasChanged == old(hasChanged)
      ensures vibrationSite == old(vibrationSite) && thermalSite == old(thermalSite)
      ensures !succeeded ==>
        && slidersTouched == old(slidersTouched) && referral == old(referral) && masking == old(masking)
        && trialCurrent == old(trialCurrent) && submitEnabled == old(submitEnabled)
      ensures succeeded ==>
        && slidersTouched == [false, false, false] && referral == None && masking == None
        && trialCurrent == NextTrial(old(trialCurrent))
        && (submitEnabled <==> old(submitEnabled) && old(trialCurrent) + 1 <= TARGET_COUNT)
    {
      pendingSaves := pendingSaves - 1;
      if succeeded {
        slidersTouched := [false, false, false];
        referral := None;
        masking := None;
        trialCurrent := trialCurrent + 1;
        if trialCurrent > TARGET_COUNT {
          trialCurrent := 0;
          submitEnabled := false;
        }
      }
    }
  }

  /**
   * Two clicks on submit with the first one's response in between.  After a
   * refusal the second is refused because PLAY was not pressed again; after a
   * throw in generate_signal it throws again; after a successful save it is
   * refused because the sliders were cleared (or submitting was switched off).
   * Only a failed save lets the same submission through a second time.
   */
  method ResubmitNeedsAction(s: Session, firstSaveSucceeded: bool)
    returns (firstSent: bool, secondSent: bool)
    requires s.Valid() && s.submitEnabled
    modifies s
    ensures secondSent <==> firstSent && !firstSaveSucceeded
  {
    var problems: seq<SubmitProblem>;
    problems, firstSent := s.OnSubmit();
    if firstSent {
      s.OnSaveResponse(firstSaveSucceeded);
    }
    assert !AllTouched([false, false, false]) by {
      assert ![false, false, false][0];
    }
    problems, secondSent := s.OnSubmit();
  }

  /**
   * Two clicks on submit before any response arrives: the second click sees
   * the same form as the first, so it is sent exactly when the first was,
   * and two requests for the same rating are then under way.
   */
  method OverlappingResubmit(s: Session) returns (firstSent: bool, secondSent: bool)
    requires s.Valid()
    modifies s
    ensures secondSent <==> firstSent
    ensures firstSent ==> s.pendingSaves == old(s.pendingSaves) + 2
  {
    var problems: seq<SubmitProblem>;
    problems, firstSent := s.OnSubmit();
    problems, secondSent := s.OnSubmit();
  }
}
