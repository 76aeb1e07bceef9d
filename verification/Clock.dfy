/** Time as the services read it: whole microseconds since the epoch. */
module Clock {

  type Time = int

  const SECOND: int := 1_000_000
  const DAY: int := 86_400_000_000
  const WEEK_SECONDS: int := 604_800

  /** The whole second an instant falls in, as JWT claims record it. */
  function WholeSecond(t: Time): (s: int)
    ensures InstantOf(s) <= t < InstantOf(s) + SECOND
  {
    t / 1_000_000
  }

  function InstantOf(seconds: int): Time {
    seconds * 1_000_000
  }

  /** Python's `int(x)`, which truncates towards zero, for a duration in seconds. */
  function TruncateToSeconds(duration: int): (s: int)
    ensures 0 <= duration ==> InstantOf(s) <= duration < InstantOf(s) + SECOND
    ensures duration <= 0 ==> InstantOf(s) - SECOND < duration <= InstantOf(s)
  {
    if 0 <= duration then duration / 1_000_000 else -(-duration / 1_000_000)
  }

  /** Midnight UTC of the day an instant falls in. */
  function StartOfDay(t: Time): (m: Time)
    ensures m <= t < m + DAY
    ensures m % DAY == 0
  {
    t - t % 86_400_000_000
  }
}
