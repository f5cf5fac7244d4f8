/** The errors the authentication service reports: an `AuthError` with a
    message, one of the `auth/…` codes and optional details, and the mapping
    from whatever a login or sign-up step throws to the `AuthError` the
    caller sees. */
module AuthErrors {
  import opened Wrappers
  import RateLimitService

  /** The `AUTH_ERROR_CODES`. */
  datatype ErrorCode =
    | InvalidCredentials
    | EmailExists
    | WeakPassword
    | RateLimit
    | NetworkError
    | ServerError
    | SignupFailed

  /** The text of each code, as it travels to the client. */
  function CodeText(code: ErrorCode): (text: string)
    ensures |text| > 5 && text[..5] == "auth/"
  {
    match code
    case InvalidCredentials => "auth/invalid-credentials"
    case EmailExists => "auth/email-exists"
    case WeakPassword => "auth/weak-password"
    case RateLimit => "auth/rate-limit"
    case NetworkError => "auth/network-error"
    case ServerError => "auth/server-error"
    case SignupFailed => "auth/signup-failed"
  }

  /** No two codes share a text, so a client can tell every code apart. */
  lemma CodeTextInjective(a: ErrorCode, b: ErrorCode)
    requires CodeText(a) == CodeText(b)
    ensures a == b
  {
  }

  /** The details an `AuthError` may carry: the rate-limit state, or the
      original error (which this model does not inspect). */
  datatype ErrorDetails =
    | NoDetails
    | RateLimitDetails(locked: bool, warning: bool, remainingAttempts: Option<int>)
    | OriginalError

  datatype AuthError = AuthError(message: string, code: ErrorCode, details: ErrorDetails)

  /** What a step of `login` or `signUp` can throw: a `RateLimitError`, an
      `AuthError`, or anything else (a failing collaborator). */
  datatype Thrown =
    | ThrownRateLimit(rateLimitError: RateLimitService.RateLimitError)
    | ThrownAuth(authError: AuthError)
    | ThrownOther

  const INVALID_CREDENTIALS_MESSAGE: string := "Invalid email or password"
  const UNEXPECTED_MESSAGE: string := "An unexpected error occurred"
  const CHECK_EMAIL_MESSAGE: string := "Failed to check email availability"
  const EMAIL_EXISTS_MESSAGE: string := "Email already registered"
  const SIGNUP_FAILED_MESSAGE: string := "Failed to create account"

  /** The one error for an unknown email and for a wrong password alike. */
  const INVALID_CREDENTIALS_ERROR: AuthError := AuthError(INVALID_CREDENTIALS_MESSAGE, InvalidCredentials, NoDetails)

  /** `login`'s catch block. A rate-limit error becomes RATE_LIMIT with its
      message and remaining count, flagged locked or warning by its status;
      an `AuthError` passes unchanged; anything else is a SERVER_ERROR. */
  function LoginCatch(thrown: Thrown): (e: AuthError)
    ensures thrown.ThrownRateLimit? ==>
              e.code == RateLimit && e.message == thrown.rateLimitError.message && e.details.RateLimitDetails?
              && (e.details.locked <==> thrown.rateLimitError.status == Some(RateLimitService.Locked))
              && (e.details.warning <==> thrown.rateLimitError.status == Some(RateLimitService.Warning))
              && e.details.remainingAttempts == thrown.rateLimitError.remainingAttempts
    ensures thrown.ThrownAuth? ==> e == thrown.authError
    ensures thrown.ThrownOther? ==> e.code == ServerError && e.message == UNEXPECTED_MESSAGE
  {
    match thrown
    case ThrownRateLimit(error) =>
      AuthError(error.message, RateLimit,
        RateLimitDetails(error.status == Some(RateLimitService.Locked), error.status == Some(RateLimitService.Warning),
                         error.remainingAttempts))
    case ThrownAuth(error) => error
    case ThrownOther => AuthError(UNEXPECTED_MESSAGE, ServerError, OriginalError)
  }

  /** `signUp`'s catch block: an `AuthError` passes unchanged, anything else
      becomes SIGNUP_FAILED. */
  function SignUpCatch(thrown: Thrown): (e: AuthError)
    ensures thrown.ThrownAuth? ==> e == thrown.authError
    ensures !thrown.ThrownAuth? ==> e.code == SignupFailed && e.message == SIGNUP_FAILED_MESSAGE
  {
    match thrown
    case ThrownAuth(error) => error
    case _ => AuthError(SIGNUP_FAILED_MESSAGE, SignupFailed, OriginalError)
  }

  /** Locked and warning are never flagged together. */
  lemma RateLimitFlagsExclusive(thrown: Thrown)
    requires thrown.ThrownRateLimit?
    ensures !(LoginCatch(thrown).details.locked && LoginCatch(thrown).details.warning)
  {
  }
}
