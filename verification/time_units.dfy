/** Durations in epoch milliseconds. Calendar days are taken as 24 hours. */
module TimeUnits {
  const SECOND_MS: int := 1000
  const MINUTE_MS: int := 60 * SECOND_MS
  const HOUR_MS: int := 60 * MINUTE_MS
  const DAY_MS: int := 24 * HOUR_MS
}
