/**
 * The countdown shown at the top of the goal list: the number of whole days,
 * rounded up, between the current instant and a fixed target date.
 *
 * Instants are milliseconds since the Unix epoch, as JavaScript's Date holds
 * them. The source divides in floating point and applies Math.ceil; here the
 * division is exact integer ceiling division on the millisecond difference.
 */
module Countdown {

  /** Milliseconds in one day: 1000 * 60 * 60 * 24. */
  const MsPerDay: int := 1000 * 60 * 60 * 24

  /** The fixed target, new Date("2026-01-01"): midnight UTC, 20454 days after the epoch. */
  const TargetDate: int := 1767225600000

  /** Milliseconds in one hour, used by the worked example below. */
  const MsPerHour: int := 1000 * 60 * 60

  /** Days left until `target` as seen at `now`: the ceiling of (target - now) / MsPerDay. */
  function DaysLeft(target: int, now: int): (days: int)
    ensures (days - 1) * MsPerDay < target - now <= days * MsPerDay
  {
    // Dafny's division by a positive divisor rounds down; ceiling is minus the floor of the negation
    -((now - target) / MsPerDay)
  }

  /** The two bounds of DaysLeft's contract determine the day count uniquely. */
  lemma DaysLeftUnique(target: int, now: int, d: int)
    requires (d - 1) * MsPerDay < target - now <= d * MsPerDay
    ensures d == DaysLeft(target, now)
  {
  }

  /** A target strictly in the future but at most one day away reports 1, not 0. */
  lemma DaysLeftWithinOneDay(target: int, now: int)
    requires 0 < target - now <= MsPerDay
    ensures DaysLeft(target, now) == 1
  {
    DaysLeftUnique(target, now, 1);
  }

  /** Once the target has been reached the count is zero or negative; exactly at the target it is zero. */
  lemma DaysLeftPast(target: int, now: int)
    requires target <= now
    ensures DaysLeft(target, now) <= 0
    ensures target == now ==> DaysLeft(target, now) == 0
  {
    if target == now {
      DaysLeftUnique(target, now, 0);
    }
  }

  /** Waiting never increases the count. */
  lemma DaysLeftMonotone(target: int, now: int, later: int)
    requires now <= later
    ensures DaysLeft(target, later) <= DaysLeft(target, now)
  {
  }

  /** Looking one whole day earlier adds exactly one day to the count. */
  lemma DaysLeftDayEarlier(target: int, now: int)
    ensures DaysLeft(target, now - MsPerDay) == DaysLeft(target, now) + 1
  {
    var d := DaysLeft(target, now);
    DaysLeftUnique(target, now - MsPerDay, d + 1);
  }

  /** At 23:00 UTC on 31 December 2025 one day is left until the target date. */
  lemma DaysLeftNewYearsEve()
    ensures DaysLeft(TargetDate, TargetDate - MsPerHour) == 1
  {
    DaysLeftWithinOneDay(TargetDate, TargetDate - MsPerHour);
  }
}
