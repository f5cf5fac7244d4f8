# Login rate limiting, authentication flow and session cookies

This project is a Dafny model of the authentication core of a web
application. It covers four parts:

- **The login attempt limiter** (`RateLimitValidator`, `RateLimitStorage`,
  `RateLimitService`). A `failed_attempts` table holds one row per
  (client address, identifier) key: an attempt count and the instant its
  15-minute window started. Every login check first increments the key's
  count through the `increment_failed_attempts` call. It then classifies
  the new count by `remaining = 5 - count`:
  - allowed when at least 3 attempts remain;
  - a warning when 1 or 2 remain;
  - locked when none remain.
  Warnings and locks are thrown as `RateLimitError`s. A successful login
  deletes the key's row.
- **Login and sign-up** (`AuthService`). These are step-by-step procedures
  over four pieces of state: the attempt table, a `users` table keyed by
  email, the cookie-write log and an append-only audit log. Whatever a step
  throws is caught once and mapped to an `AuthError` with an `auth/…` code
  (`AuthErrors`).
- **Cookie serialisation** (`CookieService`). `setCookie` builds the cookie
  string:
  - `name=encodedValue`, then the attributes in the fixed order HttpOnly,
    Secure, SameSite, Path, Domain, Max-Age;
  - the defaults are HttpOnly, Secure, SameSite=Strict and Path=/.
  `getCookie` parses a `document.cookie` header. The CSRF token is 32 random
  bytes written as 64 lowercase hexadecimal digits.
- **The JavaScript string operations** these rely on (`Text`): `split`,
  `join`, `trim`, `toLowerCase`, and the decimal rendering of numbers.

## How the model is built

Mutable state is held in classes whose methods are proved against pure
specification functions:

- `RateLimitStorage.AttemptTable` holds the table as a `map`.
- `CookieService.CookieJar` holds the strings assigned to `document.cookie`
  as a write log.
- `AuthService.AuthBackend` holds the table, the jar, the users map and the
  audit log.

These outside influences are explicit inputs to the model:

- **The clock.** `now` is an integer in milliseconds.
- **Randomness.** The 32 CSRF bytes are a parameter.
- **Failures of the backing store and of collaborators.** Each failure
  this model covers is a fault parameter: `Option<StoreError>` for the
  increment call, booleans for the others. A query can fail by answering
  with an error or by throwing, and these are separate faults. A throw from
  `hashPassword` or from `generateTokens` is a fault too. The failures
  listed under "## Left out" are not covered.

The collaborators whose code is not part of this model are function-typed
parameters:

- `hashPassword`;
- `TokenService.generateTokens`;
- `encodeURIComponent` and `decodeURIComponent`.

The model follows the code where the code and its comments disagree:

- The comment at `src/lib/services/RateLimitService.ts:37` places the
  warning zone at attempts 4–5. The code warns at counts 3 and 4.
- Warnings are thrown. So a third or fourth login attempt is refused even
  with the right password (`AuthService.ThirdAttemptRefused`).
- A user query that answers with an error, an unknown email and a wrong
  password all give the same INVALID_CREDENTIALS error.
- `removeCookie` passes `maxAge: 0`, and `setCookie` renders Max-Age only
  for a non-zero value. A removal therefore writes an empty value with no
  Max-Age at all (`CookieService.RemovalString`).

## Model

| member | source | states |
|---|---|---|
| Text.Split | src/lib/services/CookieService.ts:77 | `split` gives at least one piece, no piece holds the separator, and joining the pieces gives the input back |
| Text.SplitJoin | src/lib/services/CookieService.ts:77 | splitting a join of separator-free pieces gives the pieces back |
| Text.Trim | src/lib/services/CookieService.ts:79 | the `trim` result neither starts nor ends with whitespace and is no longer than its input |
| Text.TrimStrips | src/lib/services/CookieService.ts:79 | `trim` keeps one contiguous part of its input, starting where `trimStart` stops, and everything before and after that part is whitespace |
| Text.TrimStart | src/lib/services/CookieService.ts:79 | the result is a suffix of the input, everything dropped is whitespace, and the result does not start with whitespace |
| Text.TrimEnd | src/lib/services/CookieService.ts:79 | the result is a prefix of the input, everything dropped is whitespace, and the result does not end with whitespace |
| Text.Join | src/lib/services/CookieService.ts:77 | the `;`-joined cookie header that `document.cookie.split(';')` takes apart (`Text.Split` and `Text.SplitJoin` make it the inverse of `split`): it starts with its first pair, followed by the separator when there is more than one |
| Text.TrimKeeps | src/lib/services/CookieService.ts:79 | a string without leading or trailing whitespace is left unchanged by `trim` |
| Text.ToLower | src/lib/services/AuthService.ts:20 | lower-casing keeps the length, leaves no upper-case ASCII letter, and changes only upper-case letters, each to its lower-case form |
| Text.ToLowerIdempotent | src/lib/services/AuthService.ts:39 | lower-casing an already lower-cased email changes nothing |
| Text.IntToStringRoundTrip | src/lib/services/CookieService.ts:71 | the decimal rendering of an integer is a sign and digits only, and reads back to the same integer |
| Text.IntToString | src/lib/services/RateLimitService.ts:40 | a non-negative number renders as its digits, with no leading zero; a negative number as `-` followed by the digits of its magnitude |
| RateLimitValidator.IsWithinWindow | src/lib/services/rateLimit/RateLimitValidator.ts:4-7 | inside the window exactly when `now - lastReset <= windowMinutes * 60000` |
| RateLimitValidator.ShouldResetAttempts | src/lib/services/rateLimit/RateLimitValidator.ts:9-11 | reset exactly when `now` is after the window's end |
| RateLimitValidator.IsRateLimited | src/lib/services/rateLimit/RateLimitValidator.ts:13-15 | limited exactly when no attempts remain under the configured maximum |
| RateLimitValidator.WindowBoundary | src/lib/services/rateLimit/RateLimitValidator.ts:4-7 | the window's last millisecond is inside it and the next one calls for a reset |
| RateLimitValidator.ResetIsOutsideWindow | src/lib/services/rateLimit/RateLimitValidator.ts:9-11 | resetting is the negation of being inside the window, for all inputs |
| RateLimitValidator.ExpiryIsPermanent | src/lib/services/rateLimit/RateLimitValidator.ts:4-11 | once a window has expired, it stays expired at every later instant |
| RateLimitValidator.RateLimitedIsMonotone | src/lib/services/rateLimit/RateLimitValidator.ts:13-15 | a limited count stays limited when it grows |
| RateLimitValidator.FiveAttemptThresholds | src/lib/services/__tests__/RateLimitService.test.ts:17-47 | with five attempts allowed, a count of 3 is not limited and a count of 5 is |
| RateLimitStorage.WindowExpired | src/lib/services/rateLimit/RateLimitStorage.ts:23-27 | the storage layer's expiry test is exactly the validator's reset test with a 15-minute window |
| RateLimitStorage.NewCount | src/lib/services/rateLimit/RateLimitStorage.ts:43-47 | the increment call answers at least 1: one more than the stored count, or 1 for a new key |
| RateLimitStorage.Incremented | src/lib/services/rateLimit/RateLimitStorage.ts:43-47 | after an increment the key is present with the new count. A new row's window starts now; an old row keeps its start; every other row is unchanged |
| RateLimitStorage.StoredAttempts | src/lib/services/rateLimit/RateLimitStorage.ts:5-37 | a read reports a positive count only for a row whose window is still open; such a row reads as its stored count, and a missing row reads as 0 |
| RateLimitStorage.ExpiredReadsZero | src/lib/services/rateLimit/RateLimitStorage.ts:23-29 | a row whose window has expired reads as zero attempts |
| RateLimitStorage.ResetReadsZero | src/lib/services/rateLimit/RateLimitStorage.ts:59-65 | after a reset the key reads as zero and every other key reads as before |
| RateLimitStorage.IncrementIsRead | src/lib/services/rateLimit/RateLimitStorage.ts:5-47 | inside the window, a read after an increment sees the new count, one more than before |
| RateLimitStorage.AttemptTable.IncrementFailedAttemptsRpc | src/lib/services/rateLimit/RateLimitStorage.ts:43-47 | answers the new count and increments the row, or fails and changes nothing |
| RateLimitStorage.AttemptTable.DeleteRow | src/lib/services/rateLimit/RateLimitStorage.ts:61-65 | removes exactly the key's row, or fails and changes nothing |
| RateLimitStorage.AttemptTable.GetAttempts | src/lib/services/rateLimit/RateLimitStorage.ts:5-37 | a failed read, a missing row and an expired row give 0; otherwise the stored count. Only an expired row is deleted, and only when the delete works; nothing is ever thrown |
| RateLimitStorage.AttemptTable.IncrementAttempts | src/lib/services/rateLimit/RateLimitStorage.ts:39-57 | increments the key's row, or passes the store's failure on and changes nothing |
| RateLimitStorage.AttemptTable.ResetAttempts | src/lib/services/rateLimit/RateLimitStorage.ts:59-75 | removes exactly the key's row, or passes the store's failure on and changes nothing |
| RateLimitService.CurrentAttempts | src/lib/services/RateLimitService.ts:25 | a missing answer counts as 0, any other answer as itself |
| RateLimitService.WarningMessage | src/lib/services/RateLimitService.ts:38-44 | the warning opens with "Warning: " and the rendered count, followed by a space. It ends with " remaining before temporary lockout." and is never the lockout text |
| RateLimitService.WarningMessageInjective | src/lib/services/RateLimitService.ts:38-44 | different remaining counts give different warnings, so the count can be read back from the text |
| RateLimitService.WarningMessageOne | src/lib/services/RateLimitService.ts:38-44 | with one attempt left the warning says "1 login attempt", in the singular |
| RateLimitService.WarningMessageTwo | src/lib/services/RateLimitService.ts:38-44 | with two attempts left the warning says "2 login attempts", in the plural |
| RateLimitService.ClassifyCount | src/lib/services/RateLimitService.ts:25-52 | counts of 5 or more are LOCKED with 0 remaining; counts 3 and 4 are WARNING with `5 - count` remaining; counts up to 2 are allowed with `5 - count` remaining. The three tiers partition all counts, and every error carries a status |
| RateLimitService.Classify | src/lib/services/RateLimitService.ts:20-60 | a store failure is never a normal return. A returned error gives "Unable to process login attempt", a thrown one "Rate limit check failed", both without status or count. An answer is classified by its count |
| RateLimitService.LockedMeansRateLimited | src/lib/services/RateLimitService.ts:29-35 | LOCKED is exactly the validator's rate-limited test under the 5-attempt policy |
| RateLimitService.LockedIsPermanent | src/lib/services/RateLimitService.ts:29-35 | a locked count stays locked as it grows |
| RateLimitService.CheckAndIncrementAttempts | src/lib/services/RateLimitService.ts:9-61 | increments the key's row and classifies the new count, or on a store failure leaves the table unchanged and reports the failure |
| RateLimitService.ResetAttempts | src/lib/services/RateLimitService.ts:63-77 | removes exactly the key's row, or leaves the table unchanged when the delete fails; it never fails |
| AuthErrors.CodeText | src/lib/constants/errorCodes.ts:1-9 | every error code travels as a text beginning with `auth/` |
| AuthErrors.CodeTextInjective | src/lib/constants/errorCodes.ts:1-9 | no two error codes share a text |
| AuthErrors.LoginCatch | src/lib/services/AuthService.ts:91-113 | a rate-limit error becomes RATE_LIMIT with its message and remaining count, flagged locked or warning exactly by its status. An `AuthError` passes unchanged. Anything else becomes SERVER_ERROR "An unexpected error occurred" |
| AuthErrors.SignUpCatch | src/lib/services/AuthService.ts:192-202 | an `AuthError` passes unchanged; anything else becomes SIGNUP_FAILED "Failed to create account" |
| AuthErrors.RateLimitFlagsExclusive | src/lib/services/AuthService.ts:97-98 | a RATE_LIMIT error is never flagged both locked and warning |
| CookieService.Attributes | src/lib/services/CookieService.ts:55-71 | a cookie has one to six attribute segments, each beginning with the space that follows its `;` |
| CookieService.CookieString | src/lib/services/CookieService.ts:64-73 | every cookie string begins with `name=` and the encoded value |
| CookieService.AttributesDefaults | src/lib/services/CookieService.ts:55-69 | every cookie carries a SameSite attribute (Strict unless set) and a non-empty Path (`/` unless set). HttpOnly comes first unless turned off |
| CookieService.Present | src/lib/services/CookieService.ts:66-71 | an optional attribute is rendered exactly when its condition holds, at most once |
| CookieService.BuildFlags | src/lib/services/CookieService.ts:64-68 | appending HttpOnly, Secure and SameSite one `+=` at a time gives the joined segment list |
| CookieService.BuildPlacement | src/lib/services/CookieService.ts:69-71 | appending Path, Domain and Max-Age one `+=` at a time gives the joined segment list |
| CookieService.BuildCookieString | src/lib/services/CookieService.ts:54-72 | the string built by successive `+=` is `name=encodedValue` and the attribute segments joined by `;` |
| CookieService.CookieStringSegments | src/lib/services/CookieService.ts:64-77 | when the name, value, path and domain hold no `;`, splitting a cookie string at `;` gives back exactly the pair and the attribute segments |
| CookieService.HexDigit | src/lib/services/CookieService.ts:94 | a value below 16 is written as a lowercase hexadecimal digit |
| CookieService.HexValue | src/lib/services/CookieService.ts:94 | reading a lowercase hexadecimal digit gives a value below 16 that is written as the same digit |
| CookieService.ToRadix16 | src/lib/services/CookieService.ts:94 | `toString(16)` gives at least one lowercase hexadecimal digit, with a leading zero only for zero |
| CookieService.PadStart2 | src/lib/services/CookieService.ts:94 | `padStart(2, '0')` leaves a text of two or more characters as it is, puts one `0` before a single character and gives `00` for the empty text |
| CookieService.ByteToHex | src/lib/services/CookieService.ts:94 | `toString(16).padStart(2, '0')` writes every byte as exactly two digits, high nibble first |
| CookieService.BytesToHex | src/lib/services/CookieService.ts:94 | the rendering of n bytes is 2n lowercase hexadecimal digits |
| CookieService.HexToBytes | src/lib/services/CookieService.ts:94 | reading 2n hexadecimal digits gives n bytes |
| CookieService.BytesToHexRoundTrip | src/lib/services/CookieService.ts:91-95 | reading the hexadecimal rendering back gives the bytes |
| CookieService.HexToBytesRoundTrip | src/lib/services/CookieService.ts:91-95 | every even-length lowercase hexadecimal text is the rendering of the bytes read from it |
| CookieService.CsrfToken | src/lib/services/CookieService.ts:91-95 | the CSRF token is 64 lowercase hexadecimal digits from which the 32 random bytes read back |
| CookieService.AccessCookieAttributes | src/lib/services/CookieService.ts:19-24 | the access-token cookie is HttpOnly, Secure, SameSite=Strict, Path=/ and has Max-Age `expiresIn` |
| CookieService.WeekMaxAge | src/lib/services/CookieService.ts:31 | seven days renders as `Max-Age=604800` |
| CookieService.RefreshCookieAttributes | src/lib/services/CookieService.ts:27-32 | the refresh-token cookie has the same flags and Max-Age=604800 |
| CookieService.CsrfCookieAttributes | src/lib/services/CookieService.ts:36-41 | the CSRF cookie is Secure, SameSite=Strict, Path=/ with Max-Age `expiresIn`, and not HttpOnly |
| CookieService.AuthTokenWrites | src/lib/services/CookieService.ts:17-42 | `setAuthTokens` writes three cookies, in order: `auth_token`, `refresh_token` and `csrf_token`, each beginning with its name and the encoded value |
| CookieService.ClearTokenWrites | src/lib/services/CookieService.ts:44-48 | `clearAuthTokens` writes three removals, of `auth_token`, `refresh_token` and `csrf_token` in that order. Each is the name with an empty value and the removal attributes |
| CookieService.MaxAgeAttribute | src/lib/services/CookieService.ts:71 | Max-Age is rendered exactly when the max-age is non-zero |
| CookieService.RemovalAttributes | src/lib/services/CookieService.ts:87-89 | a removal renders HttpOnly, Secure, SameSite=Strict, Path=/ and no Max-Age |
| CookieService.RemovalString | src/lib/services/CookieService.ts:87-89 | `removeCookie(name)` writes `name=; HttpOnly; Secure; SameSite=Strict; Path=/` |
| CookieService.AttributesSeparatorFree | src/lib/services/CookieService.ts:64-71 | no attribute segment holds a `;` when the path and domain hold none |
| CookieService.FirstMatch | src/lib/services/CookieService.ts:78-83 | the index found is that of the first segment with the name, or the segment count when there is none |
| CookieService.FirstMatchAt | src/lib/services/CookieService.ts:78-82 | a matching segment preceded by no other match is the one found |
| CookieService.FindCookie | src/lib/services/CookieService.ts:76-85 | a cookie is reported missing exactly when no segment carries its name. Otherwise the answer is the decoded value of the first segment that does |
| CookieService.SegmentParts | src/lib/services/CookieService.ts:79 | `cookie.trim().split('=')` gives a name and a value without `=`. The trimmed segment starts with the name, and with `name=value` when it holds a `=`. Without a `=`, the name is the whole trimmed segment and the value is "undefined" |
| CookieService.NameEqualsValue | src/lib/services/CookieService.ts:79 | a text that splits at `=` into several pieces starts with the first piece, `=` and the second piece |
| CookieService.GetCookie | src/lib/services/CookieService.ts:76-85 | the loop returns the decoded value of the first segment whose trimmed name matches, or nothing |
| CookieService.GetCsrfToken | src/lib/services/CookieService.ts:50-52 | the CSRF token is the value of the `csrf_token` cookie |
| CookieService.WrittenPair | src/lib/services/CookieService.ts:64-73 | the pair the browser keeps of a cookie string is its first `;`-free part, a prefix of the string |
| CookieService.WrittenPairOf | src/lib/services/CookieService.ts:64-73 | the pair of a string `setCookie` wrote is `name=encodedValue` |
| CookieService.ListedPairParts | src/lib/services/CookieService.ts:77-81 | a pair of plain texts, listed first or after the space following a `;`, reads back as that name and value |
| CookieService.HeaderLookup | src/lib/services/CookieService.ts:76-85 | in a `document.cookie` header of pairs joined by `;`, the first pair with the name yields its decoded value |
| CookieService.CookieRoundTrip | src/lib/services/CookieService.ts:54-85 | the pair `setCookie` writes, listed in a `document.cookie` header before any other pair of its name, reads back as the value written. This needs plain names and values, and decoding that undoes encoding |
| CookieService.CsrfCookieReadsBack | src/lib/services/CookieService.ts:34-52 | the CSRF cookie `setAuthTokens` writes, listed in a `document.cookie` header, reads back as the token |
| CookieService.CookieJar.SetCookie | src/lib/services/CookieService.ts:54-74 | exactly one write, of the rendered cookie string |
| CookieService.CookieJar.RemoveCookie | src/lib/services/CookieService.ts:87-89 | exactly one write, of the empty value with the removal options |
| CookieService.CookieJar.SetAuthTokens | src/lib/services/CookieService.ts:17-42 | three writes in order: access token, refresh token, then a CSRF token made from the random bytes |
| CookieService.CookieJar.ClearAuthTokens | src/lib/services/CookieService.ts:44-48 | the three removal writes, the same whatever the jar held, so clearing twice writes them twice |
| AuthService.LoginKey | src/lib/services/AuthService.ts:18-21 | attempts are counted under the client address and the lowercased email, which lowering again leaves unchanged |
| AuthService.SessionRole | src/lib/services/AuthService.ts:61 | a missing or empty role becomes `user`; any other role is kept |
| AuthService.LoginSession | src/lib/services/AuthService.ts:78-89 | the login session takes id, email, plan and verification from the stored row, with the role defaulted |
| AuthService.Authenticate | src/lib/services/AuthService.ts:27-55 | credentials pass exactly when the query works and the lowercased email's row has the password's hash. A failed query, an unknown email and a wrong password give the identical error |
| AuthService.LoginClaims | src/lib/services/AuthService.ts:58-63 | the tokens are issued for the stored id, email and plan, with the same non-empty defaulted role as the session |
| AuthService.LoginCheck | src/lib/services/AuthService.ts:18-21 | the rate-limit check answers normally exactly when the store answers and the new count is at most 2, with `5 - count` remaining. A store failure is an error without status |
| AuthService.LoginOutcome | src/lib/services/AuthService.ts:13-114 | login succeeds exactly when the store answers, the new count is at most 2, hashing and the user query work, the credentials pass and the tokens are issued. A store failure, a warning and a lock end in RATE_LIMIT with matching flags, even with the right password. A failed hash, a thrown user query and a throw while issuing tokens are SERVER_ERROR. A query error, an unknown email and a wrong password give INVALID_CREDENTIALS. A success returns the stored user and the issued tokens |
| AuthService.LoginRowsAfter | src/lib/services/AuthService.ts:18-69 | the store's failure leaves the rows as they were. A failed login adds one to the key's count. A successful login whose reset works leaves no row for the key. Other keys are untouched |
| AuthService.ThirdAttemptRefused | src/lib/services/AuthService.ts:18-21 | a third attempt is refused with a warning and 2 remaining, whatever the password |
| AuthService.FailedLoginsCount | src/lib/services/AuthService.ts:18-21 | n failed logins add n to the key's count |
| AuthService.LockedAfterFourFailures | src/lib/services/AuthService.ts:18-21 | after four failed logins from a fresh key, the fifth is locked out whatever the password |
| AuthService.LoginSessionEmail | src/lib/services/AuthService.ts:39-81 | with rows stored under their own emails, a login session's email is the lowercased email typed |
| AuthService.NewUserRecord | src/lib/services/AuthService.ts:142-152 | a new account is stored under the lowercased email with the given names and hash, unverified, on the plan named "Unpaid" |
| AuthService.SignUpSession | src/lib/services/AuthService.ts:180-191 | the sign-up session keeps the created role as given and is never verified |
| AuthService.SignUpOutcome | src/lib/services/AuthService.ts:116-203 | sign-up succeeds exactly when the account is created and the tokens are issued. A taken email is EMAIL_EXISTS. A check that answers with an error is SERVER_ERROR. A failed hash, a thrown check, a failed creation and a throw while issuing tokens are SIGNUP_FAILED. A success returns the new unverified user and the issued tokens |
| AuthService.UsersAfterSignUp | src/lib/services/AuthService.ts:143-160 | a created account adds exactly the lowercased email's row, on the "Unpaid" plan, and keeps rows stored under their own emails. Without one, nothing changes |
| AuthService.FailedSignUpKeepsAccount | src/lib/services/AuthService.ts:143-171 | a sign-up whose token issuing throws reports failure, yet its account stays, so signing up again with the same email is refused as taken |
| AuthService.SignUpThenLogin | src/lib/services/AuthService.ts:27-55 | right after signing up, logging in with the same email and password succeeds when the count allows it |
| AuthService.AuthBackend.Login | src/lib/services/AuthService.ts:13-114 | returns `LoginOutcome` and keeps rows stored under their own emails; a session's email is the lowercased email typed. The count is incremented on every call the store answers, whatever the credentials. On success only, it writes the three session cookies, clears the count and appends one LOGIN_SUCCESS event. Users are untouched |
| AuthService.AuthBackend.SignUp | src/lib/services/AuthService.ts:116-203 | returns `SignUpOutcome` and keeps rows stored under their own emails; a session's email is the lowercased email typed. The new row is added once the account is created, even when token issuing then fails. On success only, it writes the session cookies and appends one SIGNUP_SUCCESS event. The attempt table is untouched |

## Left out

- The Supabase queries and calls are in-memory maps plus explicit fault inputs. Their server-side bodies are not part of this model:
  - `increment_failed_attempts` is modelled only as creating the row at 1 or adding 1. A new row's window starts at `now` and an existing row keeps its window start; no server-side window is assumed;
  - `create_user_with_plan` is modelled as inserting an unverified row under the lowercased email with the given names and hash, and an id and role that the call assigns (`CreatedUser`). The plan is the one named "Unpaid". Its id is given by a function parameter, `planIdOf`, that stands for the call's lookup of a plan by name.
- `.single()` failing on several rows cannot arise: the users map holds one row per email.
- `hashPassword`, `TokenService.generateTokens`, `encodeURIComponent` and `decodeURIComponent` are uninterpreted function parameters. Hash comparison timing is not modelled.
- `encodeURIComponent` and `decodeURIComponent` are total functions here. The `URIError` they throw on lone surrogates or malformed escapes, which `setCookie` and `getCookie` do not catch, is not modelled.
- A throw inside `setAuthTokens` after some of its cookies are written is not modelled. A throw from token issuing is modelled, and comes before any cookie is written.
- The `RateLimitError` and `AuthError` classes come from `@/lib/utils/errors`, which is not part of this model. The model assumes that a `RateLimitError` built with a message only has no status and no remaining count. It also assumes that what `hashPassword`, `generateTokens` and the Supabase client throw is never an `AuthError` or a `RateLimitError`.
- `AuditService.logAuthEvent` is the append-only `audit` log. Its own failure is not modelled, so an audit failure after the cookies are written is not covered.
- `crypto.getRandomValues` is replaced by the 32 bytes it fills in, given as input.
- The browser's cookie jar is not modelled. Each `document.cookie` assignment is one entry in `CookieJar.writes`, and `getCookie` takes the header that reading `document.cookie` would return as input. Browser rules, such as HttpOnly cookies not being settable from scripts, are outside the model.
- `getClientIp` is the constant `CLIENT_IP`, `127.0.0.1`.
- Concurrency, atomicity of the counter update, and `async`/`await` are not modelled. The model is sequential.
- Text.ToLower: only ASCII letters are lower-cased, not the full Unicode mapping of `toLowerCase`.
- CookieService.MaxAgeAttribute: a `NaN` max-age, also falsy in the source, is not representable. A non-integral number, and JavaScript's exponent notation for very large numbers, are not modelled.
- `AuthService.handleFailedLogin` is private and never called, so it is not part of this model.
- The UI (`LoginForm.tsx`) and the React context (`AuthContext.tsx`) are not part of this model.
- The test file calls operations `RateLimitService` does not define. It is used only for the thresholds in `RateLimitValidator.FiveAttemptThresholds`.
- `WINDOW_MINUTES` is declared by `RateLimitService` but used by none of its operations. The service applies no window of its own, and the login flow never reads the count through the expiring read. A key whose count reaches 5 stays locked until its row is deleted. Only a successful login deletes it, and a locked login cannot succeed.
- `RateLimitStorage.AttemptTable.GetAttempts` models the lazy-expiry read, which the login flow does not use: it only increments and resets.
- The cookie writes and the attempt reset of a successful login are in separate logs. Their relative order is not observable in the model.
