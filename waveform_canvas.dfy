/**
 * The waveform preview of static/np-waveform-canvas.mjs.
 *
 * The synthesised vibration signal is drawn one pixel column at a time: each
 * column shows the minimum and maximum of its slice of the signal, coloured
 * by the frequency envelope averaged down to one value per column.  Pixels,
 * CSS strings and resize handling are not part of this model; what is kept
 * is which samples each column summarises and the values it derives.
 */
module NpWaveformCanvas {
  import opened JsMath
  import opened Wrappers

  // ---------------------------------------------------------------------------
  // Sums, minima and maxima

  /** segment.reduce((sum, v) => sum + v, 0): the left-to-right sum. */
  function Sum(s: seq<real>): real
  {
    if |s| == 0 then 0.0 else Sum(s[..|s| - 1]) + s[|s| - 1]
  }

  /** Math.min(...s) on a non-empty slice. */
  function SeqMin(s: seq<real>): (r: real)
    requires 0 < |s|
    ensures forall k :: 0 <= k < |s| ==> r <= s[k]
    ensures r in s
  {
    if |s| == 1 then s[0] else Min(SeqMin(s[..|s| - 1]), s[|s| - 1])
  }

  /** Math.max(...s) on a non-empty slice. */
  function SeqMax(s: seq<real>): (r: real)
    requires 0 < |s|
    ensures forall k :: 0 <= k < |s| ==> s[k] <= r
    ensures r in s
  {
    if |s| == 1 then s[0] else Max(SeqMax(s[..|s| - 1]), s[|s| - 1])
  }

  /** A sum of values within [lo, hi] lies within [n·lo, n·hi]. */
  lemma {:induction false} SumBounds(s: seq<real>, lo: real, hi: real)
    requires forall k :: 0 <= k < |s| ==> lo <= s[k] <= hi
    ensures |s| as real * lo <= Sum(s) <= |s| as real * hi
  {
    if 0 < |s| {
      SumBounds(s[..|s| - 1], lo, hi);
      assert (|s| - 1) as real * lo + lo == |s| as real * lo;
      assert (|s| - 1) as real * hi + hi == |s| as real * hi;
    }
  }

  lemma QuotientBounds(x: real, n: real, lo: real, hi: real)
    requires 0.0 < n && n * lo <= x <= n * hi
    ensures lo <= x / n <= hi
  {
    var q := x / n;
    assert q * n == x;
    if q < lo {
      MulPos(lo - q, n);
    }
    if hi < q {
      MulPos(q - hi, n);
    }
  }

  /** The average of a non-empty slice lies between its minimum and maximum. */
  lemma MeanBetween(s: seq<real>)
    requires 0 < |s|
    ensures SeqMin(s) <= Sum(s) / |s| as real <= SeqMax(s)
  {
    MeanWithin(s, SeqMin(s), SeqMax(s));
  }

  /** The average of values within [lo, hi] lies within [lo, hi]. */
  lemma MeanWithin(s: seq<real>, lo: real, hi: real)
    requires 0 < |s|
    requires forall k :: 0 <= k < |s| ==> lo <= s[k] <= hi
    ensures lo <= Sum(s) / |s| as real <= hi
  {
    SumBounds(s, lo, hi);
    QuotientBounds(Sum(s), |s| as real, lo, hi);
  }

  // ---------------------------------------------------------------------------
  // Chunks

  /** Math.floor(i · (len / count)): where chunk i of len samples split count ways begins. */
  function ChunkStart(i: nat, len: nat, count: nat): (r: int)
    requires 0 < count
    ensures i <= count ==> 0 <= r <= len
  {
    var size := len as real / count as real;
    ChunkScale(i, count, size);
    (i as real * size).Floor
  }

  lemma ChunkScale(i: nat, count: nat, size: real)
    requires 0 < count && 0.0 <= size
    ensures 0.0 <= i as real * size
    ensures i <= count ==> i as real * size <= count as real * size
  {
    MulNonNeg(i as real, size);
    if i <= count {
      MulNonNeg((count - i) as real, size);
    }
  }

  /**
   * The chunks of downsampleArray (and the columns of draw_waveform) run in
   * order from 0 to len: each starts where the previous one ends, none has
   * a negative length, and the last one ends at len.
   */
  lemma ChunksPartition(len: nat, count: nat, i: nat, j: nat)
    requires 0 < count && i <= j <= count
    ensures ChunkStart(0, len, count) == 0 && ChunkStart(count, len, count) == len
    ensures ChunkStart(i, len, count) <= ChunkStart(j, len, count)
  {
    var size := len as real / count as real;
    MulDivCancel(len as real, count as real);
    assert count as real * size == len as real;
    MulNonNeg((j - i) as real, size);
    assert i as real * size <= j as real * size;
  }

  /** Chunk i as a slice of arr, empty when the chunk is. */
  function Chunk(arr: seq<real>, count: nat, i: nat): (r: seq<real>)
    requires i < count
    ensures |r| == ChunkStart(i + 1, |arr|, count) - ChunkStart(i, |arr|, count)
  {
    ChunksPartition(|arr|, count, i, i + 1);
    arr[ChunkStart(i, |arr|, count)..ChunkStart(i + 1, |arr|, count)]
  }

  /** Chunks 0 .. k − 1 placed end to end. */
  function ChunksUpTo(arr: seq<real>, count: nat, k: nat): seq<real>
    requires k <= count
  {
    if k == 0 then [] else ChunksUpTo(arr, count, k - 1) + Chunk(arr, count, k - 1)
  }

  /** The first k chunks, end to end, are the prefix of the array up to where chunk k starts. */
  lemma {:induction false} ChunksPrefix(arr: seq<real>, count: nat, k: nat)
    requires 0 < count && k <= count
    ensures ChunksUpTo(arr, count, k) == arr[..ChunkStart(k, |arr|, count)]
  {
    ChunksPartition(|arr|, count, 0, k);
    if k > 0 {
      ChunksPrefix(arr, count, k - 1);
      ChunksPartition(|arr|, count, k - 1, k);
      var a, b := ChunkStart(k - 1, |arr|, count), ChunkStart(k, |arr|, count);
      assert arr[..a] + arr[a..b] == arr[..b];
    }
  }

  /** The chunks cover the array without gap or overlap: all of them, end to end, are the array. */
  lemma ChunksCover(arr: seq<real>, count: nat)
    requires 0 < count
    ensures ChunksUpTo(arr, count, count) == arr
  {
    ChunksPrefix(arr, count, count);
    ChunksPartition(|arr|, count, 0, count);
    assert arr[..|arr|] == arr;
  }

  /** The value downsampleArray keeps for chunk i: its average, or 0 for an empty chunk. */
  function ChunkAverage(arr: seq<real>, count: nat, i: nat): (r: real)
    requires i < count
    ensures |Chunk(arr, count, i)| == 0 ==> r == 0.0
    ensures 0 < |Chunk(arr, count, i)| ==> SeqMin(Chunk(arr, count, i)) <= r <= SeqMax(Chunk(arr, count, i))
  {
    var segment := Chunk(arr, count, i);
    if |segment| > 0 then
      MeanBetween(segment);
      Sum(segment) / |segment| as real
    else 0.0
  }

  /** downsampleArray: one average per chunk, exactly targetLength of them. */
  method DownsampleArray(arr: seq<real>, targetLength: nat) returns (result: seq<real>)
    ensures |result| == targetLength
    ensures forall i :: 0 <= i < targetLength ==> result[i] == ChunkAverage(arr, targetLength, i)
  {
    result := [];
    var i := 0;
    while i < targetLength
      invariant 0 <= i <= targetLength && |result| == i
      invariant forall k :: 0 <= k < i ==> result[k] == ChunkAverage(arr, targetLength, k)
    {
      var segment := Chunk(arr, targetLength, i);
      var avg := if |segment| > 0 then Sum(segment) / |segment| as real else 0.0;
      result := result + [avg];
      i := i + 1;
    }
  }

  // ---------------------------------------------------------------------------
  // colormapGreen

  /** The alpha of colormapGreen as written: 0.2 + 0.9·clamp(norm, 0, 1). */
  function ColormapGreenAlpha(norm: real): (alpha: real)
    ensures 0.2 <= alpha <= 1.1
  {
    0.2 + 0.9 * Min(Max(norm, 0.0), 1.0)
  }

  /**
   * The alpha exceeds the largest valid opacity exactly when norm > 8/9; at
   * norm = 1 it is 1.1, not the documented 1.
   */
  lemma ColormapGreenAlphaOverflows(norm: real)
    ensures ColormapGreenAlpha(norm) > 1.0 <==> norm > 8.0 / 9.0
    ensures ColormapGreenAlpha(1.0) == 1.1 && ColormapGreenAlpha(0.0) == 0.2
  {
  }

  /** The alpha as documented: from 0.1 (light) to 1 (full). */
  function ColormapGreenAlphaIntended(norm: real): (alpha: real)
    ensures 0.1 <= alpha <= 1.0
    ensures norm <= 0.0 ==> alpha == 0.1
    ensures 1.0 <= norm ==> alpha == 1.0
    ensures alpha + 0.1 == ColormapGreenAlpha(norm)
  {
    0.1 + 0.9 * Min(Max(norm, 0.0), 1.0)
  }

  /** The documented alpha never decreases as the frequency rises. */
  lemma ColormapGreenAlphaMonotone(norm1: real, norm2: real)
    requires norm1 <= norm2
    ensures ColormapGreenAlphaIntended(norm1) <= ColormapGreenAlphaIntended(norm2)
  {
  }

  // ---------------------------------------------------------------------------
  // The canvas element

  /** One drawn column: the extent of its pcm slice (None for an empty slice) and its colour's alpha. */
  datatype Column = Column(extent: Option<(real, real)>, alpha: Option<real>)

  /** The (min, max) of column i's slice, when it has samples. */
  function ColumnExtent(pcm: seq<real>, width: nat, i: nat): (r: Option<(real, real)>)
    requires i < width
    ensures r.Some? <==> 0 < |Chunk(pcm, width, i)|
    ensures r.Some? ==> r.value.0 <= r.value.1
  {
    var samples := Chunk(pcm, width, i);
    if |samples| > 0 then Some((SeqMin(samples), SeqMax(samples))) else None
  }

  /**
   * The stroke alpha of column i: the documented alpha of frequency chunk i,
   * when frequencies are given.  The code as written draws an alpha exactly
   * 0.1 higher (ColormapGreenAlpha).
   */
  function ColumnAlpha(freqs: Option<seq<real>>, width: nat, i: nat): (r: Option<real>)
    requires i < width
    ensures r.Some? <==> freqs.Some?
    ensures r.Some? ==> 0.1 <= r.value <= 1.0
    ensures r.Some? ==> r.value + 0.1 == ColormapGreenAlpha(ChunkAverage(freqs.value, width, i))
  {
    if freqs.Some? then Some(ColormapGreenAlphaIntended(ChunkAverage(freqs.value, width, i))) else None
  }

  /** The number of columns the drawing loop visits: i < width − 1. */
  function DrawnColumns(width: nat): nat
  {
    if width == 0 then 0 else width - 1
  }

  class WaveformCanvas {
    var width: nat
    var lastWaveform: Option<seq<real>>
    var lastFreqs: Option<seq<real>>

    constructor(width: nat)
      ensures this.width == width && lastWaveform == None && lastFreqs == None
    {
      this.width := width;
      lastWaveform := None;
      lastFreqs := None;
    }

    /**
     * draw_waveform: remembers its arguments and, when there is a waveform,
     * draws columns 0 .. width − 2, column i summarising pcm slice i of width
     * and coloured by frequency chunk i of width when frequencies are given,
     * with the documented alpha (the as-written one overshoots 1).
     */
    method DrawWaveform(pcm: Option<seq<real>>, freqs: Option<seq<real>>) returns (columns: seq<Column>)
      modifies this
      ensures lastWaveform == pcm && lastFreqs == freqs && width == old(width)
      ensures pcm.None? ==> columns == []
      ensures pcm.Some? ==> |columns| == DrawnColumns(width)
      ensures pcm.Some? ==> forall i :: 0 <= i < |columns| ==>
        && columns[i].extent == ColumnExtent(pcm.value, width, i)
        && columns[i].alpha == ColumnAlpha(freqs, width, i)
    {
      lastWaveform := pcm;
      lastFreqs := freqs;
      columns := [];
      if pcm.None? {
        return;
      }
      var colorFreqs: Option<seq<real>> := None;
      if freqs.Some? {
        var averaged := DownsampleArray(freqs.value, width);
        colorFreqs := Some(averaged);
      }
      columns := DrawColumns(pcm.value, freqs, colorFreqs, width);
    }
  }

  /** The drawing loop of draw_waveform, given the downsampled frequencies. */
  method DrawColumns(pcm: seq<real>, freqs: Option<seq<real>>, colorFreqs: Option<seq<real>>, width: nat)
    returns (columns: seq<Column>)
    requires colorFreqs.Some? <==> freqs.Some?
    requires colorFreqs.Some? ==> |colorFreqs.value| == width
    requires colorFreqs.Some? ==> forall i :: 0 <= i < width ==> colorFreqs.value[i] == ChunkAverage(freqs.value, width, i)
    ensures |columns| == DrawnColumns(width)
    ensures forall i :: 0 <= i < |columns| ==>
      && columns[i].extent == ColumnExtent(pcm, width, i)
      && columns[i].alpha == ColumnAlpha(freqs, width, i)
  {
    columns := [];
    var i := 0;
    while i < DrawnColumns(width)
      invariant 0 <= i <= DrawnColumns(width) && |columns| == i
      invariant forall k :: 0 <= k < i ==>
        && columns[k].extent == ColumnExtent(pcm, width, k)
        && columns[k].alpha == ColumnAlpha(freqs, width, k)
    {
      var samples := Chunk(pcm, width, i);
      var extent := if |samples| > 0 then Some((SeqMin(samples), SeqMax(samples))) else None;
      var alpha := if colorFreqs.Some? then Some(ColormapGreenAlphaIntended(colorFreqs.value[i])) else None;
      assert alpha == ColumnAlpha(freqs, width, i);
      columns := columns + [Column(extent, alpha)];
      i := i + 1;
    }
  }
}
