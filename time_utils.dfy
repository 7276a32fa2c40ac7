/** The time-window rules of the reservation lifecycle (src/utils/timeUtils.ts).
    Timestamps are integer milliseconds; the clock reading `now` is a parameter. */
module TimeUtils {

  const MinuteMs: int := 60000

  /** Check-in opens this many minutes before the start ... */
  const CheckInBefore: int := 10
  /** ... and closes this many minutes after it. */
  const CheckInAfter: int := 15
  /** A reservation with no check-in becomes a no-show this long after its start. */
  const NoShowAfter: int := 15
  /** Sessions and no-shows are finalized this long after their end. */
  const CheckoutAfter: int := 10

  /** date-fns addMinutes on an absolute timestamp (a negative count subtracts). */
  function AddMinutes(t: int, minutes: int): int {
    t + minutes * MinuteMs
  }

  /** Both conversions are pass-throughs: stored timestamps are already absolute. */
  function ToUTC(t: int): int { t }

  function FromUTC(t: int): int { t }

  lemma UtcRoundTrip(t: int)
    ensures FromUTC(ToUTC(t)) == t && ToUTC(FromUTC(t)) == t
  {
  }

  predicate IsWithinCheckInWindow(startTime: int, now: int) {
    AddMinutes(startTime, -CheckInBefore) <= now <= AddMinutes(startTime, CheckInAfter)
  }

  predicate IsNoShow(startTime: int, now: int) {
    now >= AddMinutes(startTime, NoShowAfter)
  }

  predicate ShouldAutoFinalize(endTime: int, now: int) {
    now >= AddMinutes(endTime, CheckoutAfter)
  }

  /** Both ends of the check-in window are inclusive, to the millisecond. */
  lemma CheckInWindowBoundaries(startTime: int)
    ensures IsWithinCheckInWindow(startTime, startTime - 10 * MinuteMs)
    ensures !IsWithinCheckInWindow(startTime, startTime - 10 * MinuteMs - 1)
    ensures IsWithinCheckInWindow(startTime, startTime + 15 * MinuteMs)
    ensures !IsWithinCheckInWindow(startTime, startTime + 15 * MinuteMs + 1)
    ensures IsWithinCheckInWindow(startTime, startTime)
  {
  }

  /** Once a reservation is a no-show it stays one as time passes. */
  lemma NoShowIsMonotone(startTime: int, now: int, later: int)
    requires now <= later && IsNoShow(startTime, now)
    ensures IsNoShow(startTime, later)
  {
  }

  lemma AutoFinalizeIsMonotone(endTime: int, now: int, later: int)
    requires now <= later && ShouldAutoFinalize(endTime, now)
    ensures ShouldAutoFinalize(endTime, later)
  {
  }

  /** The check-in window and the no-show rule share exactly one instant,
      start + 15 minutes; after it only the no-show rule holds, before it
      only the window (or neither). */
  lemma WindowMeetsNoShow(startTime: int, now: int)
    ensures IsWithinCheckInWindow(startTime, now) && IsNoShow(startTime, now)
            <==> now == startTime + 15 * MinuteMs
    ensures now > startTime + 15 * MinuteMs
            ==> IsNoShow(startTime, now) && !IsWithinCheckInWindow(startTime, now)
    ensures now < startTime + 15 * MinuteMs ==> !IsNoShow(startTime, now)
  {
  }
}
