/** Lengths of time in seconds. */
module Clock {
  const MINUTE: nat := 60
  const DAY: nat := 86400
}
