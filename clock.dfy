/**
 * Instants and durations as integer nanoseconds.
 *
 * An instant counts nanoseconds from Go's zero `time.Time`, so the zero
 * deadline of a fresh record is `ZeroTime` and every clock reading is at or
 * after it. `time.Time.After` is the strict `>`; `Before` the strict `<`.
 */
module Clock {

  type Time = int
  type Duration = int

  const ZeroTime: Time := 0
  const Second: Duration := 1_000_000_000
  const Hour: Duration := 3600 * Second

  /** `t.After(u)` */
  predicate After(t: Time, u: Time) { t > u }

  /**
   * `int(d.Seconds())`: the whole seconds in `d`, truncated toward zero as
   * Go's float-to-int conversion does (Dafny's `/` rounds toward minus
   * infinity for negative operands, so the negative case is written out).
   */
  function TruncSeconds(d: Duration): (s: int)
    ensures 0 <= d ==> 0 <= s && s * Second <= d < (s + 1) * Second
    ensures d < 0 ==> s <= 0 && (s - 1) * Second < d <= s * Second
  {
    if d >= 0 then d / Second else -((-d) / Second)
  }

  /**
   * The idle deadline a save computes: `now + idleTimeout`, pulled back to
   * `absoluteDeadline` when that comes first.
   */
  function SavedIdleDeadline(now: Time, idleTimeout: Duration, absoluteDeadline: Time): (d: Time)
    ensures d <= absoluteDeadline && d <= now + idleTimeout
    ensures d == absoluteDeadline || d == now + idleTimeout
  {
    var idle := now + idleTimeout;
    if absoluteDeadline < idle then absoluteDeadline else idle
  }

  /** With a zero absolute timeout the saved idle deadline is `now` itself. */
  lemma SavedIdleDeadlineZeroAbsolute(now: Time, idleTimeout: Duration)
    requires 0 <= idleTimeout
    ensures SavedIdleDeadline(now, idleTimeout, now + 0) == now
  {
  }
}
