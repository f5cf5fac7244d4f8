/** The record shapes shared by the rate-limiting services. */
module RateLimitTypes {
  import opened Wrappers

  /** The policy: how many attempts are allowed within how many minutes. */
  datatype RateLimitConfig = RateLimitConfig(maxAttempts: int, windowMinutes: int)

  /** Attempts are counted per client address and account identifier. */
  datatype RateLimitKey = RateLimitKey(ip: string, identifier: string)

  /** What a successful rate-limit check reports to the caller. */
  datatype RateLimitResult = RateLimitResult(
    isLimited: bool,
    remainingAttempts: int,
    shouldWarn: bool,
    message: Option<string>)
}
