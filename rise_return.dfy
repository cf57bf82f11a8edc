/**
 * Rise and return times of one thermal stimulus, from
 * play_signal/compute_rising_return.py.
 *
 * A log is a sequence of rows (Millis, Delta, Input_Temperature).  The
 * stimulus starts at the first row whose Delta is non-zero; the return phase
 * starts at the first later row whose Delta is back to zero.  The rise time
 * is the time from stimulus start to the first row whose temperature is
 * within the tolerance of the target; the return time is the time from the
 * return start to the first row back within the tolerance of the baseline.
 * Every "first row" is first in row order among the rows a pandas mask keeps.
 */
module RiseReturn {
  import opened Wrappers

  const BASELINE_TEMP: real := 32.5
  const TOLERANCE: real := 0.2

  datatype Row = Row(millis: real, delta: real, inputTemperature: real)

  /** Time_s = Millis / 1000 */
  function TimeS(row: Row): real
  {
    row.millis / 1000.0
  }

  /** The row masks the function applies, each followed by .iloc[0]. */
  datatype Mask =
    | NonZeroDelta
    | ZeroDeltaAfter(start: real)
    | RiseReached(start: real, positive: bool, target: real)
    | Returned(start: real, positive: bool)

  predicate Keeps(mask: Mask, row: Row)
  {
    match mask
    case NonZeroDelta => row.delta != 0.0
    case ZeroDeltaAfter(start) => TimeS(row) > start && row.delta == 0.0
    case RiseReached(start, positive, target) =>
      TimeS(row) >= start
      && if positive then row.inputTemperature >= target - TOLERANCE else row.inputTemperature <= target + TOLERANCE
    case Returned(start, positive) =>
      TimeS(row) >= start
      && if positive then row.inputTemperature <= BASELINE_TEMP + TOLERANCE
         else row.inputTemperature >= BASELINE_TEMP - TOLERANCE
  }

  /** Row i is the first row in order that the mask keeps. */
  predicate IsFirst(rows: seq<Row>, i: int, mask: Mask)
  {
    0 <= i < |rows| && Keeps(mask, rows[i]) && forall j :: 0 <= j < i ==> !Keeps(mask, rows[j])
  }

  /** df[mask].iloc[0] as a row index; None where the masked frame is empty. */
  function FirstKept(rows: seq<Row>, mask: Mask): (r: Option<nat>)
    ensures r.Some? ==> IsFirst(rows, r.value, mask)
    ensures r.None? <==> forall j :: 0 <= j < |rows| ==> !Keeps(mask, rows[j])
  {
    if |rows| == 0 then None
    else if Keeps(mask, rows[0]) then Some(0)
    else match FirstKept(rows[1..], mask)
      case None => None
      case Some(k) => Some(k + 1)
  }

  /** The first kept row is unique, so FirstKept finds exactly it. */
  lemma FirstKeptFindsFirst(rows: seq<Row>, i: int, mask: Mask)
    requires IsFirst(rows, i, mask)
    ensures FirstKept(rows, mask) == Some(i)
  {
    var r := FirstKept(rows, mask);
    assert r.Some? by { assert Keeps(mask, rows[i]); }
    assert Keeps(mask, rows[r.value]);
  }

  /** The mask that selects the row reaching the target of the stimulus that starts at row s. */
  function RiseMask(s: Row): Mask
  {
    RiseReached(TimeS(s), s.delta > 0.0, BASELINE_TEMP + s.delta)
  }

  datatype Outcome = Outcome(mainDelta: real, riseTime: Option<real>, returnTime: Option<real>)

  /** .iloc[0] on an empty frame raises IndexError. */
  datatype RiseReturnError = NoReturnStart

  /** Elapsed time from start to the first row the mask keeps, or None. */
  function ElapsedToFirst(rows: seq<Row>, mask: Mask, start: real): (r: Option<real>)
    requires mask.RiseReached? || mask.Returned?
    requires mask.start == start
    ensures r.Some? ==> 0.0 <= r.value
    ensures r.None? <==> forall j :: 0 <= j < |rows| ==> !Keeps(mask, rows[j])
  {
    match FirstKept(rows, mask)
    case None => None
    case Some(k) => Some(TimeS(rows[k]) - start)
  }

  /** calculate_rise_and_return_times_by_temperature */
  function RiseAndReturnTimes(rows: seq<Row>): (r: Result<Outcome, RiseReturnError>)
    ensures r.Ok? && r.value.mainDelta == 0.0 ==> r.value.riseTime.None? && r.value.returnTime.None?
    ensures r.Ok? && r.value.riseTime.Some? ==> 0.0 <= r.value.riseTime.value
    ensures r.Ok? && r.value.returnTime.Some? ==> 0.0 <= r.value.returnTime.value
  {
    match FirstKept(rows, NonZeroDelta)
    case None => Ok(Outcome(0.0, None, None))
    case Some(s) =>
      var mainDelta := rows[s].delta;
      var stimStart := TimeS(rows[s]);
      match FirstKept(rows, ZeroDeltaAfter(stimStart))
      case None => Err(NoReturnStart)
      case Some(e) =>
        var returnStart := TimeS(rows[e]);
        Ok(Outcome(mainDelta,
                   ElapsedToFirst(rows, RiseMask(rows[s]), stimStart),
                   ElapsedToFirst(rows, Returned(returnStart, mainDelta > 0.0), returnStart)))
  }

  /** Without any non-zero Delta the result is (0.0, None, None), and only then. */
  lemma NoStimulus(rows: seq<Row>)
    ensures (forall i :: 0 <= i < |rows| ==> rows[i].delta == 0.0) <==> RiseAndReturnTimes(rows) == Ok(Outcome(0.0, None, None))
  {
    if FirstKept(rows, NonZeroDelta).Some? {
      var s := FirstKept(rows, NonZeroDelta).value;
      assert rows[s].delta != 0.0;
    }
  }

  /** The call fails exactly when a stimulus starts and no later row has Delta back at zero. */
  lemma IndexErrorIff(rows: seq<Row>, s: int)
    requires IsFirst(rows, s, NonZeroDelta)
    ensures RiseAndReturnTimes(rows).Err? <==>
            forall j :: 0 <= j < |rows| ==> !(TimeS(rows[j]) > TimeS(rows[s]) && rows[j].delta == 0.0)
  {
    FirstKeptFindsFirst(rows, s, NonZeroDelta);
  }

  /**
   * With the stimulus starting at row s: main_delta is Delta of row s, and the
   * rise time is the time from row s to the first row at or after it that is
   * within the tolerance of 32.5 + main_delta (above it for a warming
   * stimulus, below it otherwise); it is None when no such row exists.
   */
  lemma RiseTimeIsFirstCrossing(rows: seq<Row>, s: int)
    requires IsFirst(rows, s, NonZeroDelta) && RiseAndReturnTimes(rows).Ok?
    ensures RiseAndReturnTimes(rows).value.mainDelta == rows[s].delta != 0.0
    ensures RiseAndReturnTimes(rows).value.riseTime.None? <==>
            forall k :: 0 <= k < |rows| ==> !Keeps(RiseMask(rows[s]), rows[k])
    ensures forall k :: IsFirst(rows, k, RiseMask(rows[s])) ==>
            RiseAndReturnTimes(rows).value.riseTime == Some(TimeS(rows[k]) - TimeS(rows[s]))
  {
    FirstKeptFindsFirst(rows, s, NonZeroDelta);
    forall k | IsFirst(rows, k, RiseMask(rows[s]))
      ensures RiseAndReturnTimes(rows).value.riseTime == Some(TimeS(rows[k]) - TimeS(rows[s]))
    {
      FirstKeptFindsFirst(rows, k, RiseMask(rows[s]));
    }
  }

  /**
   * With the stimulus starting at row s and the return starting at row e (the
   * first row later than row s with Delta zero), the return time is the time
   * from row e to the first row at or after it back within the tolerance of
   * the baseline; it is None when no such row exists.
   */
  lemma ReturnTimeIsFirstCrossing(rows: seq<Row>, s: int, e: int)
    requires IsFirst(rows, s, NonZeroDelta) && IsFirst(rows, e, ZeroDeltaAfter(TimeS(rows[s])))
    ensures RiseAndReturnTimes(rows).Ok?
    ensures RiseAndReturnTimes(rows).value.returnTime.None? <==>
            forall k :: 0 <= k < |rows| ==> !Keeps(Returned(TimeS(rows[e]), rows[s].delta > 0.0), rows[k])
    ensures forall k :: IsFirst(rows, k, Returned(TimeS(rows[e]), rows[s].delta > 0.0)) ==>
            RiseAndReturnTimes(rows).value.returnTime == Some(TimeS(rows[k]) - TimeS(rows[e]))
  {
    FirstKeptFindsFirst(rows, s, NonZeroDelta);
    FirstKeptFindsFirst(rows, e, ZeroDeltaAfter(TimeS(rows[s])));
    forall k | IsFirst(rows, k, Returned(TimeS(rows[e]), rows[s].delta > 0.0))
      ensures RiseAndReturnTimes(rows).value.returnTime == Some(TimeS(rows[k]) - TimeS(rows[e]))
    {
      FirstKeptFindsFirst(rows, k, Returned(TimeS(rows[e]), rows[s].delta > 0.0));
    }
  }
}
