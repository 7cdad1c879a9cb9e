/** java.time values as integers: an Instant is a count of nanoseconds since
    the epoch and a Duration a (signed) count of nanoseconds. */
module Time {

  type Instant = int
  type Duration = int

  const NanosPerSecond: int := 1_000_000_000

  /** Duration.ofSeconds(n). */
  function OfSeconds(n: int): Duration {
    n * NanosPerSecond
  }

  /** Duration.getSeconds(): the whole seconds, rounded towards negative
      infinity (the nanosecond part of a Duration is never negative). */
  function GetSeconds(d: Duration): (r: int)
    ensures OfSeconds(r) <= d < OfSeconds(r + 1)
  {
    d / NanosPerSecond
  }

  /** Instant.plusSeconds(n). */
  function PlusSeconds(t: Instant, n: int): Instant {
    t + OfSeconds(n)
  }
}
