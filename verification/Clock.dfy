/** Lengths of time in seconds. */
module Clock {
  const HOUR := 3600
  const MINUTE := 60
}
