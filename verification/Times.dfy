/** Times as the database keeps them: nanoseconds handed to a TIMESTAMPTZ column come back as
    whole microseconds. Time 0 is Go's zero time. */
module Times {
  const MICROSECOND := 1_000

  /** What a stored time reads as: the last whole microsecond at or before it. */
  function StoredTime(t: int): (r: int)
    ensures r <= t < r + MICROSECOND && r % MICROSECOND == 0
    ensures r == t <==> t % MICROSECOND == 0
  {
    t - t % MICROSECOND
  }

  /** Distinct whole microseconds lie at least a microsecond apart. */
  lemma NextMicrosecond(a: int, b: int)
    requires a < b && a % MICROSECOND == 0 && b % MICROSECOND == 0
    ensures a + MICROSECOND <= b
  {
    assert (b - a) % MICROSECOND == 0;
  }
}
