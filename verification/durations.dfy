/** Go's time.Duration constants, in nanoseconds. Instants are modelled as
    integer nanoseconds, so `t.Before(u)` is `t < u` and `t.Add(d)` is `t + d`. */
module Durations {

  const Millisecond: int := 1_000_000
  const Second: int := 1_000 * Millisecond
  const Hour: int := 3_600 * Second
}
