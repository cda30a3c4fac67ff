/** Elapsed time measured on two clocks that can each be wrong. */
module Clock {

  /** A reading of both clocks, in seconds: `time.monotonic()` and `time.time()`. */
  datatype Reading = Reading(mono: real, wall: real)

  function Max(a: real, b: real): real { if a < b then b else a }

  /** `elapsed_ms`: the larger of the two readings, never negative. */
  function ElapsedMs(start: Reading, now: Reading): (ms: real)
    ensures ms >= 0.0
  {
    Max(Max((now.mono - start.mono) * 1000.0, (now.wall - start.wall) * 1000.0), 0.0)
  }

  /** At least one clock measured at least the true elapsed seconds; the other may have stopped or stepped back. */
  ghost predicate OneClockKeptUp(start: Reading, now: Reading, trueSeconds: real)
  {
    now.mono - start.mono >= trueSeconds || now.wall - start.wall >= trueSeconds
  }

  /** Neither clock ran fast, so nothing looks older than it is. */
  ghost predicate NoClockRanFast(start: Reading, now: Reading, trueSeconds: real)
  {
    now.mono - start.mono <= trueSeconds && now.wall - start.wall <= trueSeconds
  }

  /** Elapsed time is never under-reported while one clock works, and exact when also neither ran fast. */
  lemma ElapsedBounds(start: Reading, now: Reading, trueSeconds: real)
    requires trueSeconds >= 0.0 && OneClockKeptUp(start, now, trueSeconds)
    ensures ElapsedMs(start, now) >= trueSeconds * 1000.0
    ensures NoClockRanFast(start, now, trueSeconds) ==> ElapsedMs(start, now) == trueSeconds * 1000.0
  {
  }

}
