/**
 * Wall-clock time as the scraper sees it. `datetime.now()` has microsecond
 * resolution, while the cache stores timestamps rendered with the format
 * "%Y-%m-%d %H:%M:%S", which keeps whole seconds only. An `Instant` counts
 * microseconds from a fixed origin; a stored timestamp counts whole seconds
 * from the same origin.
 */
module Clock {

  /** A point in time, in microseconds since the origin. */
  type Instant = nat

  const MicrosPerSecond: nat := 1_000_000
  const SecondsPerDay: nat := 86_400

  /** `timedelta(days=1)` in microseconds. */
  const OneDay: nat := SecondsPerDay * MicrosPerSecond

  /** Rendering an instant with the seconds-resolution format: the fraction of a second is dropped. */
  function ToSeconds(t: Instant): (s: nat)
    ensures FromSeconds(s) <= t < FromSeconds(s) + MicrosPerSecond
  {
    t / MicrosPerSecond
  }

  /** Parsing a seconds-resolution timestamp back: the instant at the start of that second. */
  function FromSeconds(s: int): (t: int) {
    s * MicrosPerSecond
  }

  /** Parsing what was rendered gives back the same whole second. */
  lemma ParseRendered(s: nat)
    ensures ToSeconds(FromSeconds(s)) == s
  {
  }

  /** Truncation never moves a timestamp forward and preserves the order of instants. */
  lemma ToSecondsMonotone(t: Instant, u: Instant)
    requires t <= u
    ensures ToSeconds(t) <= ToSeconds(u)
  {
  }

  /**
   * An instant lies before the start of whole second `k` exactly when its
   * truncation lies before `k`.
   */
  lemma BeforeSecond(t: Instant, k: int)
    ensures t < FromSeconds(k) <==> ToSeconds(t) < k
  {
  }

  /** Starting instants of seconds are ordered like the seconds. */
  lemma FromSecondsMonotone(a: int, b: int)
    requires a <= b
    ensures FromSeconds(a) <= FromSeconds(b)
  {
  }
}
