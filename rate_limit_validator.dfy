/** Pure predicates over an attempt count and the start of its window. The
    clock is the explicit parameter `now`, in milliseconds since the epoch,
    as are all instants here. */
module RateLimitValidator {
  import opened RateLimitTypes

  const MS_PER_MINUTE: int := 60000

  /** The instant `now` is no later than the end of the window that began at
      `lastResetMs` and lasts `windowMinutes`; the end instant itself is
      inside the window. */
  function IsWithinWindow(lastResetMs: int, windowMinutes: int, now: int): (within: bool)
    ensures within <==> now - lastResetMs <= windowMinutes * MS_PER_MINUTE
  {
    var windowExpiry := lastResetMs + windowMinutes * MS_PER_MINUTE;
    now <= windowExpiry
  }

  /** The count must be reset exactly when `now` lies after the window. */
  function ShouldResetAttempts(lastResetMs: int, windowMinutes: int, now: int): (reset: bool)
    ensures reset <==> now > lastResetMs + windowMinutes * MS_PER_MINUTE
  {
    !IsWithinWindow(lastResetMs, windowMinutes, now)
  }

  /** The attempt count has reached the configured maximum. */
  function IsRateLimited(attempts: int, config: RateLimitConfig): (limited: bool)
    ensures limited <==> config.maxAttempts - attempts <= 0
  {
    attempts >= config.maxAttempts
  }

  /** The last millisecond of the window is inside it; the next one is not. */
  lemma WindowBoundary(lastResetMs: int, windowMinutes: int)
    ensures IsWithinWindow(lastResetMs, windowMinutes, lastResetMs + windowMinutes * MS_PER_MINUTE)
    ensures ShouldResetAttempts(lastResetMs, windowMinutes, lastResetMs + windowMinutes * MS_PER_MINUTE + 1)
  {
  }

  /** Resetting is the negation of being inside the window, for every input. */
  lemma ResetIsOutsideWindow(lastResetMs: int, windowMinutes: int, now: int)
    ensures ShouldResetAttempts(lastResetMs, windowMinutes, now) <==> !IsWithinWindow(lastResetMs, windowMinutes, now)
  {
  }

  /** Once a window has expired it stays expired as time goes on. */
  lemma ExpiryIsPermanent(lastResetMs: int, windowMinutes: int, now: int, later: int)
    requires now <= later
    requires ShouldResetAttempts(lastResetMs, windowMinutes, now)
    ensures ShouldResetAttempts(lastResetMs, windowMinutes, later)
  {
  }

  /** A limited count stays limited when it grows. */
  lemma RateLimitedIsMonotone(attempts: int, more: int, config: RateLimitConfig)
    requires attempts <= more
    requires IsRateLimited(attempts, config)
    ensures IsRateLimited(more, config)
  {
  }

  /** With five attempts allowed, a count of three is not limited and a count
      of five is. */
  lemma FiveAttemptThresholds(windowMinutes: int)
    ensures !IsRateLimited(3, RateLimitConfig(5, windowMinutes))
    ensures IsRateLimited(5, RateLimitConfig(5, windowMinutes))
  {
  }
}
