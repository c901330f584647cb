/**
 * The date arithmetic of `send_daily_message`: the next broadcast is at
 * TARGET_TIME (15:30) today when now is before it, and at TARGET_TIME
 * tomorrow otherwise. Time is local wall-clock time in whole seconds, counted
 * from a midnight; a day is always 86400 seconds long.
 */
module Broadcast {

  /** Seconds in a day. */
  const SecondsPerDay := 86400

  /** `TARGET_TIME`, 15:30, in seconds after midnight. */
  const TargetTime := 15 * 3600 + 30 * 60

  /** `datetime.combine(day, t)`: the instant at time of day t on day `day`. */
  function At(day: int, t: int): int {
    day * SecondsPerDay + t
  }

  /** `now.date()`: the day an instant falls on. */
  function DayOf(now: int): int {
    now / SecondsPerDay
  }

  /** The `target_time` the loop computes: the first instant strictly after
      now whose time of day is t. */
  function NextTarget(now: int, t: int): (r: int)
    requires 0 <= t < SecondsPerDay
    ensures now < r <= now + SecondsPerDay
    ensures r % SecondsPerDay == t
    ensures forall d :: now < At(d, t) ==> r <= At(d, t)
  {
    var today := At(DayOf(now), t);
    if now >= today then At(DayOf(now) + 1, t) else today
  }

  /** `(target_time - now).total_seconds()`: how long the loop sleeps. */
  function WaitSeconds(now: int): (w: int)
    ensures 0 < w <= SecondsPerDay
    ensures (now + w) % SecondsPerDay == TargetTime
  {
    NextTarget(now, TargetTime) - now
  }

  /** Waking at the target and computing again gives the target of the next
      day: the broadcasts stay exactly one day apart. */
  lemma NextTargetFromTarget(now: int, t: int)
    requires 0 <= t < SecondsPerDay
    ensures NextTarget(NextTarget(now, t), t) == NextTarget(now, t) + SecondsPerDay
  {
    var r := NextTarget(now, t);
    var d := DayOf(r);
    assert At(d, t) == r;
  }
}
