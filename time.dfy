/**
 * Points in time.  A .NET `DateTime` is reduced to its tick count (the number
 * of 100-nanosecond intervals since 0001-01-01); calendar kind, time zone and
 * the representable range are not part of this model.
 */
module Time {

  type Ticks = int

  const TicksPerSecond: Ticks := 10_000_000
  const TicksPerMinute: Ticks := 60 * TicksPerSecond

  /**
   * `DateTime.CompareTo`: orders two instants by their tick counts and
   * answers -1, 0 or 1.
   */
  function CompareTicks(t: Ticks, u: Ticks): (r: int)
    ensures -1 <= r <= 1
    ensures r < 0 <==> t < u
    ensures r == 0 <==> t == u
    ensures r > 0 <==> u < t
  {
    if t < u then -1 else if u < t then 1 else 0
  }
}
