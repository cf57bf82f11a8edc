/**
 * The envelope drawing canvas of static/drawcanvas.mjs.
 *
 * A canvas holds NUM_SAMPLES normalised samples, painted free-hand with the
 * mouse.  The output view folds a slope-limiting callback over the painted
 * samples, carrying the previous output value forward.  Mouse coordinates
 * arrive as fractions of the canvas size; drawing, events and the DOM are
 * not part of this model.
 */
module DrawCanvas {
  import opened JsMath
  import opened Wrappers

  const NUM_SAMPLES: nat := 150
  const DEFAULT_TOTAL_DURATION_SEC: real := 10.0
  /** The 1e-6 added to the painted width so that a one-index stroke does not divide by zero. */
  const PAINT_EPSILON: real := 0.000001

  /** The slope-limit callback: (prev_samp, desired_samp, seconds_per_sample) to the next sample. */
  type SlopeCallback = (real, real, real) -> real

  // ---------------------------------------------------------------------------
  // Painting a stroke

  /** A stroke between two sample indices, normalised so that xlow <= xhigh. */
  datatype Segment = Segment(xlow: int, ylow: real, xhigh: int, yhigh: real)

  /** Math.max(Math.min(v, 1), 0) */
  function Clamp01(v: real): (r: real)
    ensures 0.0 <= r <= 1.0
    ensures 0.0 <= v <= 1.0 ==> r == v
  {
    Max(Min(v, 1.0), 0.0)
  }

  /** Math.floor(perc · NUM_SAMPLES), as the paint loop computes its end indices. */
  function SampleIndex(perc: real): (r: int)
    ensures 0.0 <= perc ==> 0 <= r
    ensures perc <= 1.0 ==> r <= NUM_SAMPLES
  {
    (perc * NUM_SAMPLES as real).Floor
  }

  /** The sample index painted for a mouse position, kept inside the array. */
  function ClampedSampleIndex(perc: real): (r: int)
    ensures 0 <= r < NUM_SAMPLES
    ensures 0 <= SampleIndex(perc) < NUM_SAMPLES ==> r == SampleIndex(perc)
  {
    var k := SampleIndex(perc);
    if k < 0 then 0 else if k >= NUM_SAMPLES then NUM_SAMPLES - 1 else k
  }

  /**
   * The destructuring `x0 < x1 ? [x0, y0, x1, y1] : [x1, y1, x0, y0]`: the
   * stroke runs from the smaller index to the larger, and on equal indices
   * the newer point (x1, y1) comes first.
   */
  function Orient(x0: int, y0: real, x1: int, y1: real): (seg: Segment)
    ensures seg.xlow <= seg.xhigh
    ensures seg.xlow == if x0 < x1 then x0 else x1
    ensures seg.xhigh == if x0 < x1 then x1 else x0
    ensures seg.xlow == x0 ==> seg.ylow == y0 || x0 == x1
    ensures seg.xlow == x1 ==> seg.ylow == y1
  {
    if x0 < x1 then Segment(x0, y0, x1, y1) else Segment(x1, y1, x0, y0)
  }

  /** perc = (i − xlow) / (xhigh − xlow + 1e-6) */
  function PaintFraction(i: int, seg: Segment): (perc: real)
    requires seg.xlow <= i <= seg.xhigh
    ensures 0.0 <= perc < 1.0
    ensures i == seg.xlow ==> perc == 0.0
  {
    var n := (i - seg.xlow) as real;
    var d := (seg.xhigh - seg.xlow) as real + PAINT_EPSILON;
    StrictFraction(n, d);
    n / d
  }

  lemma StrictFraction(n: real, d: real)
    requires 0.0 <= n < d
    ensures 0.0 <= n / d < 1.0
  {
    var w := n / d;
    assert w * d == n;
    if w < 0.0 {
      MulPos(-w, d);
    }
    if 1.0 <= w {
      MulNonNeg(w - 1.0, d);
    }
  }

  /**
   * The value painted at index i: ylow + perc·(yhigh − ylow).  It lies
   * between the stroke's two heights, starts at ylow and, since perc < 1,
   * never reaches yhigh unless the heights coincide.
   */
  function PaintValue(i: int, seg: Segment): (r: real)
    requires seg.xlow <= i <= seg.xhigh
    ensures Between(r, seg.ylow, seg.yhigh)
    ensures i == seg.xlow ==> r == seg.ylow
    ensures seg.ylow != seg.yhigh ==> r != seg.yhigh
  {
    var perc := PaintFraction(i, seg);
    StrokeBetween(seg.ylow, seg.yhigh, perc);
    seg.ylow + perc * (seg.yhigh - seg.ylow)
  }

  lemma StrokeBetween(a: real, b: real, perc: real)
    requires 0.0 <= perc < 1.0
    ensures Between(a + perc * (b - a), a, b)
    ensures a != b ==> a + perc * (b - a) != b
  {
    if a < b {
      StrokeUpLow(a, b, perc);
      StrokeUpHigh(a, b, perc);
      assert Min(a, b) == a && Max(a, b) == b;
    } else if b < a {
      StrokeDownHigh(a, b, perc);
      StrokeDownLow(a, b, perc);
      assert Min(a, b) == b && Max(a, b) == a;
    }
  }

  lemma StrokeUpLow(a: real, b: real, perc: real)
    requires 0.0 <= perc < 1.0 && a < b
    ensures a <= a + perc * (b - a)
  {
    MulNonNeg(perc, b - a);
  }

  lemma StrokeUpHigh(a: real, b: real, perc: real)
    requires 0.0 <= perc < 1.0 && a < b
    ensures a + perc * (b - a) < b
  {
    MulLess(perc, 1.0, b - a);
  }

  lemma StrokeDownHigh(a: real, b: real, perc: real)
    requires 0.0 <= perc < 1.0 && b < a
    ensures a + perc * (b - a) <= a
  {
    MulNonPos(perc, b - a);
  }

  lemma StrokeDownLow(a: real, b: real, perc: real)
    requires 0.0 <= perc < 1.0 && b < a
    ensures b < a + perc * (b - a)
  {
    MulLess(perc, 1.0, a - b);
  }

  lemma MulLess(x: real, z: real, y: real)
    requires x < z && 0.0 < y
    ensures x * y < z * y
  {
    MulPos(z - x, y);
    assert (z - x) * y == z * y - x * y;
  }

  lemma MulNonPos(x: real, y: real)
    requires 0.0 <= x && y <= 0.0
    ensures x * y <= 0.0
  {
  }

  lemma MulNeg(x: real, y: real)
    requires 0.0 < x && y < 0.0
    ensures x * y < 0.0
  {
  }

  /**
   * The samples after painting a stroke inside the array: indices in
   * [xlow, xhigh] take the interpolated value, all others keep theirs.
   */
  function Painted(s: seq<real>, seg: Segment): (r: seq<real>)
    ensures |r| == |s|
    ensures forall i :: 0 <= i < |s| && !(seg.xlow <= i <= seg.xhigh) ==> r[i] == s[i]
    ensures forall i :: 0 <= i < |s| && seg.xlow <= i <= seg.xhigh ==> Between(r[i], seg.ylow, seg.yhigh)
  {
    seq(|s|, i requires 0 <= i < |s| => if seg.xlow <= i <= seg.xhigh then PaintValue(i, seg) else s[i])
  }

  /**
   * When the two ends of a stroke fall on different indices the direction of
   * the drag does not matter; on the same index the newer height wins.
   */
  lemma PaintDirection(s: seq<real>, x0: int, y0: real, x1: int, y1: real)
    requires 0 <= x0 < |s| && 0 <= x1 < |s|
    ensures x0 != x1 ==> Painted(s, Orient(x0, y0, x1, y1)) == Painted(s, Orient(x1, y1, x0, y0))
    ensures x0 == x1 ==> Painted(s, Orient(x0, y0, x1, y1))[x0] == y1
    ensures x0 == x1 && y0 != y1 ==> Painted(s, Orient(x0, y0, x1, y1)) != Painted(s, Orient(x1, y1, x0, y0))
  {
    if x0 == x1 && y0 != y1 {
      assert Painted(s, Orient(x1, y1, x0, y0))[x0] == y0;
    }
  }

  // The paint loop as the source writes it, on a JavaScript array that grows
  // when index == length is assigned.

  /** `arr[i] = v` on a JavaScript array, for an index at most its length. */
  function JsStore(s: seq<real>, i: nat, v: real): (r: seq<real>)
    requires i <= |s|
    ensures |r| == if i < |s| then |s| else |s| + 1
    ensures r[i] == v && forall j :: 0 <= j < |s| && j != i ==> r[j] == s[j]
  {
    if i < |s| then s[i := v] else s + [v]
  }

  /** `for (let i = from; i <= xhigh; i++) arr[i] = …` on a growable array. */
  function PaintFrom(s: seq<real>, from: nat, seg: Segment): (r: seq<real>)
    requires seg.xlow <= from && from <= |s|
    decreases seg.xhigh - from + 1
  {
    if from > seg.xhigh then s
    else PaintFrom(JsStore(s, from, PaintValue(from, seg)), from + 1, seg)
  }

  /**
   * The stroke as written: with indices taken from SampleIndex the stroke may
   * end at index NUM_SAMPLES, one past the last sample, and the array grows.
   */
  function PaintAsWritten(s: seq<real>, seg: Segment): (r: seq<real>)
    requires 0 <= seg.xlow <= |s|
  {
    PaintFrom(s, seg.xlow, seg)
  }

  lemma {:induction false} PaintFromLength(s: seq<real>, from: nat, seg: Segment)
    requires seg.xlow <= from && from <= |s|
    ensures |PaintFrom(s, from, seg)| == if seg.xhigh < |s| then |s| else MaxInt(|s|, seg.xhigh + 1)
    decreases seg.xhigh - from + 1
  {
    if from <= seg.xhigh {
      PaintFromLength(JsStore(s, from, PaintValue(from, seg)), from + 1, seg);
    }
  }

  lemma {:induction false} PaintFromAgrees(s: seq<real>, from: nat, seg: Segment)
    requires seg.xlow <= from && from <= |s| && seg.xhigh < |s|
    ensures |PaintFrom(s, from, seg)| == |s|
    ensures forall i :: 0 <= i < |s| ==>
      PaintFrom(s, from, seg)[i] == if from <= i <= seg.xhigh then PaintValue(i, seg) else s[i]
    decreases seg.xhigh - from + 1
  {
    if from <= seg.xhigh {
      PaintFromAgrees(JsStore(s, from, PaintValue(from, seg)), from + 1, seg);
    }
  }

  /** While the stroke stays inside the array, the loop as written paints exactly Painted. */
  lemma PaintAsWrittenInRange(s: seq<real>, seg: Segment)
    requires 0 <= seg.xlow <= |s| && seg.xhigh < |s|
    ensures PaintAsWritten(s, seg) == Painted(s, seg)
  {
    PaintFromAgrees(s, seg.xlow, seg);
  }

  /**
   * A drag that reaches the right edge of the canvas (x_perc clamped to 1)
   * paints index NUM_SAMPLES and leaves NUM_SAMPLES + 1 samples behind.
   */
  lemma PaintGrowsArray(s: seq<real>, lastXPerc: real, lastYPerc: real, yPerc: real)
    requires |s| == NUM_SAMPLES && 0.0 <= lastXPerc <= 1.0
    ensures SampleIndex(Clamp01(1.0)) == NUM_SAMPLES
    ensures |PaintAsWritten(s, Orient(SampleIndex(lastXPerc), lastYPerc, SampleIndex(Clamp01(1.0)), yPerc))|
         == NUM_SAMPLES + 1
  {
    var seg := Orient(SampleIndex(lastXPerc), lastYPerc, SampleIndex(Clamp01(1.0)), yPerc);
    PaintFromLength(s, seg.xlow, seg);
  }

  // ---------------------------------------------------------------------------
  // The output view: folding the slope-limit callback

  /** The last value of p, or init when p is empty. */
  function LastOr(p: seq<real>, init: real): real
  {
    if |p| == 0 then init else p[|p| - 1]
  }

  /**
   * The slope-limited samples: each output is the callback applied to the
   * previous output (init for the first) and the drawn sample at that index.
   */
  function SlopeFold(cb: SlopeCallback, init: real, input: seq<real>, secondsPerSample: real): (r: seq<real>)
    ensures |r| == |input|
    decreases |input|
  {
    if |input| == 0 then []
    else
      var p := SlopeFold(cb, init, input[..|input| - 1], secondsPerSample);
      p + [cb(LastOr(p, init), input[|input| - 1], secondsPerSample)]
  }

  /** Folding a prefix of the input gives the prefix of the fold. */
  lemma {:induction false} SlopeFoldPrefix(cb: SlopeCallback, init: real, input: seq<real>, secondsPerSample: real, k: nat)
    requires k <= |input|
    ensures SlopeFold(cb, init, input, secondsPerSample)[..k] == SlopeFold(cb, init, input[..k], secondsPerSample)
    decreases |input|
  {
    if k < |input| {
      var front := input[..|input| - 1];
      SlopeFoldPrefix(cb, init, front, secondsPerSample, k);
      assert front[..k] == input[..k];
    } else {
      assert input[..k] == input;
    }
  }

  /**
   * The recurrence the output loop implements:
   * out[0] = cb(init, in[0], spp) and out[i] = cb(out[i − 1], in[i], spp).
   */
  lemma SlopeFoldRecurrence(cb: SlopeCallback, init: real, input: seq<real>, secondsPerSample: real, i: nat)
    requires i < |input|
    ensures i == 0 ==> SlopeFold(cb, init, input, secondsPerSample)[0] == cb(init, input[0], secondsPerSample)
    ensures 0 < i ==>
      var out := SlopeFold(cb, init, input, secondsPerSample);
      out[i] == cb(out[i - 1], input[i], secondsPerSample)
  {
    var out := SlopeFold(cb, init, input, secondsPerSample);
    SlopeFoldPrefix(cb, init, input, secondsPerSample, i + 1);
    var p := SlopeFold(cb, init, input[..i + 1], secondsPerSample);
    assert input[..i + 1][..i] == input[..i];
    assert out[i] == p[i];
    if 0 < i {
      SlopeFoldPrefix(cb, init, input, secondsPerSample, i);
      assert out[i - 1] == SlopeFold(cb, init, input[..i], secondsPerSample)[i - 1];
    }
  }

  /** Any sequence that satisfies the recurrence is the fold. */
  lemma {:induction false} SlopeFoldUnique(cb: SlopeCallback, init: real, input: seq<real>, secondsPerSample: real, out: seq<real>)
    requires |out| == |input|
    requires 0 < |input| ==> out[0] == cb(init, input[0], secondsPerSample)
    requires forall i :: 0 < i < |input| ==> out[i] == cb(out[i - 1], input[i], secondsPerSample)
    ensures out == SlopeFold(cb, init, input, secondsPerSample)
    decreases |input|
  {
    if |input| > 0 {
      var n := |input| - 1;
      var front := input[..n];
      var p := out[..n];
      SlopeFoldUnique(cb, init, front, secondsPerSample, p);
      assert out == p + [out[n]];
    }
  }

  /** What the canvas reports as its output samples for the given callback. */
  function OutputSamples(input: seq<real>, callback: Option<SlopeCallback>, init: real, totalDuration: real): (r: seq<real>)
    ensures |r| == |input|
    ensures callback.None? ==> r == input
  {
    match callback
    case None => input
    case Some(cb) => SlopeFold(cb, init, input, totalDuration / NUM_SAMPLES as real)
  }

  // ---------------------------------------------------------------------------
  // The random band filled when a canvas is connected

  /** The first index written by the random fill: Math.floor(NUM_SAMPLES·low). */
  function BandStart(low: real): int
  {
    (NUM_SAMPLES as real * low).Floor
  }

  /**
   * Index j is written by `for (let i = N·low; i < N·high; i++) s[Math.floor(i)] = value`,
   * whose j-th step (counting from BandStart) runs at i = N·low + (j − BandStart).
   */
  predicate InRandomBand(j: int, low: real, high: real)
  {
    BandStart(low) <= j && NUM_SAMPLES as real * low + (j - BandStart(low)) as real < NUM_SAMPLES as real * high
  }

  /** With Math.random() values in [0, 1) the band stays inside the array, and is non-empty when low < high. */
  lemma RandomBandBounds(low: real, high: real, j: int)
    requires 0.0 <= low <= high < 1.0
    ensures InRandomBand(j, low, high) ==> 0 <= j < NUM_SAMPLES
    ensures low < high ==> InRandomBand(BandStart(low), low, high)
  {
    if InRandomBand(j, low, high) {
      var n := NUM_SAMPLES as real;
      assert (j - BandStart(low)) as real <= n * low - BandStart(low) as real + (j - BandStart(low)) as real;
      assert j as real < n * high;
      MulPos(n, 1.0 - high);
    }
  }

  // ---------------------------------------------------------------------------
  // The canvas element

  class EnvelopeCanvas {
    /** #_input_samples: the drawn samples, overwritten in place. */
    const samples: array<real>
    var initialYValue: real
    var maxSlopeCallback: Option<SlopeCallback>
    var mouseDown: bool
    var lastXPerc: real
    var lastYPerc: real
    var totalDuration: real
    var activeDuration: real

    /** The sample buffer has NUM_SAMPLES entries (the buffer itself is never replaced). */
    predicate Valid()
    {
      samples.Length == NUM_SAMPLES
    }

    /**
     * Construction followed by connectedCallback's fill with the initial
     * y-value (the optional random band is FillRandomSamples).
     */
    constructor(initialYValue: real)
      ensures Valid() && fresh(samples)
      ensures forall i :: 0 <= i < NUM_SAMPLES ==> samples[i] == initialYValue
      ensures this.initialYValue == initialYValue && maxSlopeCallback == None && !mouseDown
      ensures lastXPerc == 0.0 && lastYPerc == 0.0
      ensures totalDuration == DEFAULT_TOTAL_DURATION_SEC && activeDuration == DEFAULT_TOTAL_DURATION_SEC
    {
      samples := new real[NUM_SAMPLES](_ => initialYValue);
      this.initialYValue := initialYValue;
      maxSlopeCallback := None;
      mouseDown := false;
      lastXPerc := 0.0;
      lastYPerc := 0.0;
      totalDuration := DEFAULT_TOTAL_DURATION_SEC;
      activeDuration := DEFAULT_TOTAL_DURATION_SEC;
    }

    /** Installs (or removes) the slope-limit callback. */
    method SetMaxSlopeCallback(callback: Option<SlopeCallback>)
      modifies this
      ensures maxSlopeCallback == callback
      ensures initialYValue == old(initialYValue) && mouseDown == old(mouseDown)
      ensures lastXPerc == old(lastXPerc) && lastYPerc == old(lastYPerc)
      ensures totalDuration == old(totalDuration) && activeDuration == old(activeDuration)
    {
      maxSlopeCallback := callback;
    }

    /**
     * on_mouse_down with the mouse at (xFrac, yFrac) of the canvas size,
     * measured from its top-left corner; neither is clamped.
     */
    method OnMouseDown(xFrac: real, yFrac: real)
      modifies this
      ensures mouseDown && lastXPerc == xFrac && lastYPerc == 1.0 - yFrac
      ensures initialYValue == old(initialYValue) && maxSlopeCallback == old(maxSlopeCallback)
      ensures totalDuration == old(totalDuration) && activeDuration == old(activeDuration)
    {
      mouseDown := true;
      lastXPerc := xFrac;
      lastYPerc := 1.0 - yFrac;
    }

    /** on_mouse_up */
    method OnMouseUp()
      modifies this
      ensures !mouseDown
      ensures initialYValue == old(initialYValue) && maxSlopeCallback == old(maxSlopeCallback)
      ensures lastXPerc == old(lastXPerc) && lastYPerc == old(lastYPerc)
      ensures totalDuration == old(totalDuration) && activeDuration == old(activeDuration)
    {
      mouseDown := false;
    }

    /**
     * on_mouse_move: while the button is down, paints the stroke from the
     * last mouse position to the new one and moves the cursor there.
     * Indices are ClampedSampleIndex, so the array keeps NUM_SAMPLES entries;
     * while both ends of the stroke fall inside the array this is exactly the
     * paint loop as written (PaintAsWritten on unclamped indices).
     */
    method OnMouseMove(xFrac: real, yFrac: real)
      requires Valid()
      modifies this, samples
      ensures Valid() && mouseDown == old(mouseDown)
      ensures initialYValue == old(initialYValue) && maxSlopeCallback == old(maxSlopeCallback)
      ensures totalDuration == old(totalDuration) && activeDuration == old(activeDuration)
      ensures !old(mouseDown) ==>
        samples[..] == old(samples[..]) && lastXPerc == old(lastXPerc) && lastYPerc == old(lastYPerc)
      ensures old(mouseDown) ==>
        && lastXPerc == Clamp01(xFrac) && lastYPerc == Clamp01(1.0 - yFrac)
        && samples[..] == Painted(old(samples[..]), Orient(ClampedSampleIndex(old(lastXPerc)), old(lastYPerc),
                                                           ClampedSampleIndex(Clamp01(xFrac)), Clamp01(1.0 - yFrac)))
      ensures old(mouseDown) && 0 <= SampleIndex(old(lastXPerc)) < NUM_SAMPLES
              && SampleIndex(Clamp01(xFrac)) < NUM_SAMPLES ==>
        samples[..] == PaintAsWritten(old(samples[..]), Orient(SampleIndex(old(lastXPerc)), old(lastYPerc),
                                                               SampleIndex(Clamp01(xFrac)), Clamp01(1.0 - yFrac)))
    {
      if mouseDown {
        var xPerc := Clamp01(xFrac);
        var yPerc := Clamp01(1.0 - yFrac);
        var seg := Orient(ClampedSampleIndex(lastXPerc), lastYPerc, ClampedSampleIndex(xPerc), yPerc);
        if 0 <= SampleIndex(lastXPerc) < NUM_SAMPLES && SampleIndex(xPerc) < NUM_SAMPLES {
          PaintAsWrittenInRange(samples[..], seg);
        }
        PaintStroke(seg);
        lastXPerc := xPerc;
        lastYPerc := yPerc;
      }
    }

    /** The paint loop: `for (let i = xlow; i <= xhigh; i++) samples[i] = ylow + perc·(yhigh − ylow)`. */
    method PaintStroke(seg: Segment)
      requires Valid() && 0 <= seg.xlow <= seg.xhigh < NUM_SAMPLES
      modifies samples
      ensures samples[..] == Painted(old(samples[..]), seg)
    {
      var i := seg.xlow;
      while i <= seg.xhigh
        invariant seg.xlow <= i <= seg.xhigh + 1
        invariant forall j :: 0 <= j < NUM_SAMPLES ==>
          samples[j] == if seg.xlow <= j < i then PaintValue(j, seg) else old(samples[j])
      {
        samples[i] := PaintValue(i, seg);
        i := i + 1;
      }
      assert forall j :: 0 <= j < NUM_SAMPLES ==> samples[..][j] == Painted(old(samples[..]), seg)[j];
    }

    /** #_compute_output_samples: the input copied, or the callback folded over it. */
    method GetOutputSamples() returns (out: seq<real>)
      requires Valid()
      ensures out == OutputSamples(samples[..], maxSlopeCallback, initialYValue, totalDuration)
    {
      if maxSlopeCallback.None? {
        return samples[..];
      }
      var cb := maxSlopeCallback.value;
      var secondsPerSample := totalDuration / NUM_SAMPLES as real;
      out := samples[..];
      var prev := initialYValue;
      var i := 0;
      while i < NUM_SAMPLES
        invariant 0 <= i <= NUM_SAMPLES && |out| == NUM_SAMPLES
        invariant out[..i] == SlopeFold(cb, initialYValue, samples[..i], secondsPerSample)
        invariant prev == LastOr(out[..i], initialYValue)
      {
        var desired := samples[i];
        var curr := cb(prev, desired, secondsPerSample);
        assert samples[..i + 1][..i] == samples[..i];
        out := out[i := curr];
        assert out[..i + 1] == out[..i] + [curr];
        prev := curr;
        i := i + 1;
      }
      assert out == out[..NUM_SAMPLES] && samples[..] == samples[..NUM_SAMPLES];
    }

    /** get_input_samples: a copy of the drawn samples. */
    method GetInputSamples() returns (s: seq<real>)
      requires Valid()
      ensures |s| == NUM_SAMPLES && forall i :: 0 <= i < NUM_SAMPLES ==> s[i] == samples[i]
    {
      s := samples[..];
    }

    /** reset_samples_to: every sample becomes value. */
    method ResetSamplesTo(value: real)
      requires Valid()
      modifies samples
      ensures forall i :: 0 <= i < NUM_SAMPLES ==> samples[i] == value
    {
      forall i | 0 <= i < samples.Length {
        samples[i] := value;
      }
    }

    /**
     * #_fill_random_samples with its three Math.random() draws as parameters:
     * the band between N·min(r1, r2) and N·max(r1, r2) takes value·0.8 + 0.2.
     */
    method FillRandomSamples(r1: real, r2: real, r3: real)
      requires Valid() && 0.0 <= r1 < 1.0 && 0.0 <= r2 < 1.0
      modifies samples
      ensures forall j :: 0 <= j < NUM_SAMPLES ==>
        samples[j] == if InRandomBand(j, Min(r1, r2), Max(r1, r2)) then r3 * 0.8 + 0.2 else old(samples[j])
    {
      var low := Min(r1, r2);
      var high := Max(r1, r2);
      var value := r3 * 0.8 + 0.2;
      var n := NUM_SAMPLES as real;
      var start := BandStart(low);
      var i := n * low;
      var k: nat := 0;
      MulNonNeg(n, low);
      while i < n * high
        invariant i == n * low + k as real
        invariant 0 < k ==> n * low + (k - 1) as real < n * high
        invariant forall j :: 0 <= j < NUM_SAMPLES ==>
          samples[j] == if start <= j < start + k then value else old(samples[j])
        decreases n * high - i
      {
        assert i.Floor == start + k;
        RandomBandBounds(low, high, start + k);
        samples[i.Floor] := value;
        i := i + 1.0;
        k := k + 1;
      }
      forall j | 0 <= j < NUM_SAMPLES
        ensures InRandomBand(j, low, high) <==> start <= j < start + k
      {
      }
    }

    /** set_total_duration: both the total and the active duration become duration. */
    method SetTotalDuration(duration: real)
      modifies this
      ensures totalDuration == duration && activeDuration == duration
      ensures initialYValue == old(initialYValue) && maxSlopeCallback == old(maxSlopeCallback)
      ensures mouseDown == old(mouseDown) && lastXPerc == old(lastXPerc) && lastYPerc == old(lastYPerc)
    {
      totalDuration := duration;
      activeDuration := duration;
    }

    /** set_active_duration: only the active duration changes. */
    method SetActiveDuration(duration: real)
      modifies this
      ensures activeDuration == duration && totalDuration == old(totalDuration)
      ensures initialYValue == old(initialYValue) && maxSlopeCallback == old(maxSlopeCallback)
      ensures mouseDown == old(mouseDown) && lastXPerc == old(lastXPerc) && lastYPerc == old(lastYPerc)
    {
      activeDuration := duration;
    }

    method GetTotalDuration() returns (d: real)
      ensures d == totalDuration
    {
      d := totalDuration;
    }

    method GetActiveDuration() returns (d: real)
      ensures d == activeDuration
    {
      d := activeDuration;
    }
  }
}
