/** Login and sign-up. Both are sequences of steps over the attempt table,
    the `users` table, the cookie-write log and an append-only audit log;
    whatever a step throws is caught once at the end and mapped to an
    `AuthError`. Password hashing and token issuing are the parameters `hash`
    and `issue`; which collaborator call fails is given by a faults record. */
module AuthService {
  import opened Wrappers
  import opened Text
  import opened RateLimitTypes
  import opened RateLimitStorage
  import RateLimitService
  import opened CookieService
  import opened AuthErrors

  /** `getClientIp`: a fixed placeholder address. */
  const CLIENT_IP: string := "127.0.0.1"

  /** The role a stored user without one is given at login. */
  const DEFAULT_ROLE: string := "user"

  /** A row of the `users` table. */
  datatype UserRecord = UserRecord(
    id: string,
    email: string,
    firstname: string,
    lastname: string,
    passwordHash: string,
    role: Option<string>,
    isVerified: bool,
    planId: string)

  /** What the tokens are issued for. */
  datatype TokenClaims = TokenClaims(userId: string, email: string, role: Option<string>, planId: string)

  datatype TokenPair = TokenPair(accessToken: string, refreshToken: string, expiresIn: int)

  /** The user as the client sees it after login or sign-up. */
  datatype UserSession = UserSession(
    id: string,
    email: string,
    firstName: string,
    lastName: string,
    role: Option<string>,
    isVerified: bool,
    planId: string)

  datatype AuthResponse = AuthResponse(user: UserSession, tokens: TokenPair)

  datatype AuditKind = LoginSuccess | SignupSuccess

  datatype AuditEvent = AuditEvent(kind: AuditKind, userId: string, email: string, ipAddress: string)

  /** Which collaborator calls of a login fail, in the order they are made:
      the rate-limit store (with how it fails), `hashPassword`, the user
      query (by throwing, or by answering with an error), token issuing (by
      throwing), and the reset of the attempt count (which the rate-limit
      service swallows). */
  datatype LoginFaults = LoginFaults(
    rateLimitStore: Option<StoreError>,
    hashFails: bool,
    userQueryThrows: bool,
    userQueryFails: bool,
    tokensThrow: bool,
    resetFails: bool)

  /** The login faults of a login in which every call works. */
  const NO_LOGIN_FAULTS: LoginFaults := LoginFaults(None, false, false, false, false, false)

  /** Which collaborator calls of a sign-up fail, in the order they are made:
      `hashPassword`, the existing-email query (by throwing, or by answering
      with an error), the account creation, and token issuing (by
      throwing). */
  datatype SignUpFaults = SignUpFaults(hashFails: bool, checkThrows: bool, checkFails: bool, createFails: bool, tokensThrow: bool)

  /** The sign-up faults of a sign-up in which every call works. */
  const NO_SIGNUP_FAULTS: SignUpFaults := SignUpFaults(false, false, false, false, false)

  /** The plan every new account is created on. */
  const UNPAID_PLAN: string := "Unpaid"

  /** What the account-creation call assigns beyond its inputs: the new id
      and the role. The plan is looked up by its name. */
  datatype CreatedUser = CreatedUser(id: string, role: Option<string>)

  /** Every row is stored under its own email. */
  predicate KeyedByEmail(users: map<string, UserRecord>)
  {
    forall e :: e in users ==> users[e].email == e
  }

  // ---------------------------------------------------------------------
  // login

  /** Attempts are counted under the client address and the lowercased
      email, so emails that differ only in case share one count, and
      lowering the identifier again changes nothing. */
  function LoginKey(email: string): (key: RateLimitKey)
    ensures key.ip == CLIENT_IP && key.identifier == ToLower(email)
    ensures ToLower(key.identifier) == key.identifier
  {
    ToLowerIdempotent(email);
    RateLimitKey(CLIENT_IP, ToLower(email))
  }

  /** `user.role || 'user'`: a missing or empty role becomes `user`. */
  function SessionRole(role: Option<string>): (r: string)
    ensures r != ""
    ensures role.Some? && role.value != "" ==> r == role.value
    ensures role.None? || role.value == "" ==> r == DEFAULT_ROLE
  {
    if role.None? || role.value == "" then DEFAULT_ROLE else role.value
  }

  /** The claims a logged-in user's tokens are issued for: the stored id,
      email and plan, and the same defaulted role the session reports. */
  function LoginClaims(user: UserRecord): (claims: TokenClaims)
    ensures claims.userId == user.id && claims.email == user.email && claims.planId == user.planId
    ensures claims.role == LoginSession(user).role && claims.role.Some? && claims.role.value != ""
  {
    TokenClaims(user.id, user.email, Some(SessionRole(user.role)), user.planId)
  }

  /** The session a login returns for a stored user. */
  function LoginSession(user: UserRecord): (session: UserSession)
    ensures session.id == user.id && session.email == user.email && session.planId == user.planId
    ensures session.isVerified == user.isVerified
    ensures session.role == Some(SessionRole(user.role))
  {
    UserSession(user.id, user.email, user.firstname, user.lastname, Some(SessionRole(user.role)), user.isVerified, user.planId)
  }

  /** The user lookup and password comparison. A failed query, an unknown
      email and a wrong password all give the same error. */
  function Authenticate(users: map<string, UserRecord>, email: string, passwordHash: string, queryFails: bool)
    : (r: Result<UserRecord, AuthError>)
    ensures r.Success? <==> !queryFails && ToLower(email) in users && users[ToLower(email)].passwordHash == passwordHash
    ensures r.Success? ==> r.value == users[ToLower(email)]
    ensures r.Failure? ==> r.error == INVALID_CREDENTIALS_ERROR
  {
    if queryFails || ToLower(email) !in users then Failure(INVALID_CREDENTIALS_ERROR)
    else
      var user := users[ToLower(email)];
      if user.passwordHash != passwordHash then Failure(INVALID_CREDENTIALS_ERROR)
      else Success(user)
  }

  /** What the rate-limit check answers for a login, given the attempt rows
      before it: a normal answer exactly when the store answers and the new
      count is at most 2, and then with `5 - count` attempts remaining. */
  function LoginCheck(rows: map<RateLimitKey, AttemptRow>, email: string, faults: LoginFaults)
    : (r: Result<RateLimitResult, RateLimitService.RateLimitError>)
    ensures r.Success? <==> faults.rateLimitStore.None? && NewCount(rows, LoginKey(email)) <= 2
    ensures r.Success? ==> !r.value.isLimited && r.value.remainingAttempts == RateLimitService.MAX_ATTEMPTS - NewCount(rows, LoginKey(email))
    ensures faults.rateLimitStore.Some? ==> r.Failure? && r.error.status.None?
  {
    if faults.rateLimitStore.Some? then RateLimitService.Classify(Failure(faults.rateLimitStore.value))
    else RateLimitService.ClassifyCount(NewCount(rows, LoginKey(email)))
  }

  /** The answer of `login`.
      - It succeeds exactly when the rate-limit store answers, the new count
        is at most 2, hashing and the user query work, the lowercased email
        has a row whose hash is the password's, and the tokens are issued.
      - A store failure, a warning (count 3 or 4) and a lock (count 5 or
        more) all end in RATE_LIMIT, even with the right password; the
        flags and remaining count follow the status.
      - A failed hash, a thrown user query and a throw while issuing tokens
        are a SERVER_ERROR.
      - A query that answers with an error, an unknown email and a wrong
        password give the identical error.
      - The session takes id, email and plan from the row, with the role
        defaulted. */
  function LoginOutcome(rows: map<RateLimitKey, AttemptRow>, users: map<string, UserRecord>,
                        email: string, password: string, deviceInfo: string,
                        hash: string -> string, issue: (TokenClaims, string) -> TokenPair, faults: LoginFaults)
    : (r: Result<AuthResponse, AuthError>)
    ensures r.Success? <==>
              faults.rateLimitStore.None? && NewCount(rows, LoginKey(email)) <= 2 && !faults.hashFails
              && !faults.userQueryThrows && !faults.userQueryFails && ToLower(email) in users
              && users[ToLower(email)].passwordHash == hash(password) && !faults.tokensThrow
    ensures faults.rateLimitStore.Some? ==>
              r.Failure? && r.error.code == RateLimit && r.error.details == RateLimitDetails(false, false, None)
    ensures faults.rateLimitStore.None? && NewCount(rows, LoginKey(email)) >= RateLimitService.MAX_ATTEMPTS ==>
              r == Failure(AuthError(RateLimitService.LOCKED_MESSAGE, RateLimit, RateLimitDetails(true, false, Some(0))))
    ensures faults.rateLimitStore.None? && 3 <= NewCount(rows, LoginKey(email)) < RateLimitService.MAX_ATTEMPTS ==>
              var remaining := RateLimitService.MAX_ATTEMPTS - NewCount(rows, LoginKey(email));
              r == Failure(AuthError(RateLimitService.WarningMessage(remaining), RateLimit, RateLimitDetails(false, true, Some(remaining))))
    ensures faults.rateLimitStore.None? && NewCount(rows, LoginKey(email)) <= 2 && (faults.hashFails || faults.userQueryThrows) ==>
              r.Failure? && r.error.code == ServerError
    ensures faults.rateLimitStore.None? && NewCount(rows, LoginKey(email)) <= 2 && !faults.hashFails && !faults.userQueryThrows
            && Authenticate(users, email, hash(password), faults.userQueryFails).Failure? ==>
              r == Failure(INVALID_CREDENTIALS_ERROR)
    ensures faults.rateLimitStore.None? && NewCount(rows, LoginKey(email)) <= 2 && !faults.hashFails && !faults.userQueryThrows
            && Authenticate(users, email, hash(password), faults.userQueryFails).Success? && faults.tokensThrow ==>
              r.Failure? && r.error.code == ServerError
    ensures r.Success? ==>
              r.value.user == LoginSession(users[ToLower(email)])
              && r.value.tokens == issue(LoginClaims(users[ToLower(email)]), deviceInfo)
  {
    var check := LoginCheck(rows, email, faults);
    if check.Failure? then Failure(LoginCatch(ThrownRateLimit(check.error)))
    else if faults.hashFails || faults.userQueryThrows then Failure(LoginCatch(ThrownOther))
    else
      var found := Authenticate(users, email, hash(password), faults.userQueryFails);
      if found.Failure? then Failure(LoginCatch(ThrownAuth(found.error)))
      else if faults.tokensThrow then Failure(LoginCatch(ThrownOther))
      else Success(AuthResponse(LoginSession(found.value), issue(LoginClaims(found.value), deviceInfo)))
  }

  /** The attempt rows after a login: unchanged when the store failed,
      otherwise incremented for the login's key, and that key's row gone again
      after a successful login whose reset went through. */
  function LoginRowsAfter(rows: map<RateLimitKey, AttemptRow>, email: string, now: int, faults: LoginFaults, succeeded: bool)
    : (after: map<RateLimitKey, AttemptRow>)
    ensures faults.rateLimitStore.Some? ==> after == rows
    ensures faults.rateLimitStore.None? && !succeeded ==>
              StoredCount(after, LoginKey(email)) == NewCount(rows, LoginKey(email))
    ensures faults.rateLimitStore.None? && succeeded && !faults.resetFails ==> LoginKey(email) !in after
    ensures forall k :: k != LoginKey(email) ==> (k in after <==> k in rows) && (k in rows ==> after[k] == rows[k])
  {
    if faults.rateLimitStore.Some? then rows
    else
      var incremented := Incremented(rows, LoginKey(email), now);
      if succeeded && !faults.resetFails then incremented - {LoginKey(email)} else incremented
  }

  /** The count held for a key, whatever its age (0 without a row). */
  function StoredCount(rows: map<RateLimitKey, AttemptRow>, key: RateLimitKey): nat
  {
    if key in rows then rows[key].attemptCount else 0
  }

  /** A third attempt is refused even with the right password: the count
      of 3 is a warning, and warnings are thrown. */
  lemma ThirdAttemptRefused(rows: map<RateLimitKey, AttemptRow>, users: map<string, UserRecord>,
                            email: string, password: string, deviceInfo: string,
                            hash: string -> string, issue: (TokenClaims, string) -> TokenPair, faults: LoginFaults)
    requires LoginKey(email) in rows && rows[LoginKey(email)].attemptCount == 2
    requires faults.rateLimitStore.None?
    ensures LoginOutcome(rows, users, email, password, deviceInfo, hash, issue, faults)
            == Failure(AuthError(RateLimitService.WarningMessage(2), RateLimit, RateLimitDetails(false, true, Some(2))))
  {
  }

  /** The rows after `n` failed logins with the same key, all answered by
      the store. */
  function AfterFailedLogins(rows: map<RateLimitKey, AttemptRow>, email: string, now: int, n: nat)
    : map<RateLimitKey, AttemptRow>
  {
    if n == 0 then rows
    else LoginRowsAfter(AfterFailedLogins(rows, email, now, n - 1), email, now, NO_LOGIN_FAULTS, false)
  }

  /** Each failed login adds one to the key's count. */
  lemma {:induction false} FailedLoginsCount(rows: map<RateLimitKey, AttemptRow>, email: string, now: int, n: nat)
    ensures StoredCount(AfterFailedLogins(rows, email, now, n), LoginKey(email)) == StoredCount(rows, LoginKey(email)) + n
  {
    if n > 0 {
      FailedLoginsCount(rows, email, now, n - 1);
    }
  }

  /** After four failed logins from a fresh key, the next login is locked
      out whatever the password. */
  lemma LockedAfterFourFailures(rows: map<RateLimitKey, AttemptRow>, users: map<string, UserRecord>,
                                email: string, password: string, deviceInfo: string, now: int,
                                hash: string -> string, issue: (TokenClaims, string) -> TokenPair)
    requires LoginKey(email) !in rows
    ensures LoginOutcome(AfterFailedLogins(rows, email, now, 4), users, email, password, deviceInfo, hash, issue,
                         NO_LOGIN_FAULTS)
            == Failure(AuthError(RateLimitService.LOCKED_MESSAGE, RateLimit, RateLimitDetails(true, false, Some(0))))
  {
    FailedLoginsCount(rows, email, now, 4);
  }

  /** When rows are stored under their own emails, the session's email is
      the lowercased email that was typed. */
  lemma LoginSessionEmail(rows: map<RateLimitKey, AttemptRow>, users: map<string, UserRecord>,
                          email: string, password: string, deviceInfo: string,
                          hash: string -> string, issue: (TokenClaims, string) -> TokenPair, faults: LoginFaults)
    requires KeyedByEmail(users)
    requires LoginOutcome(rows, users, email, password, deviceInfo, hash, issue, faults).Success?
    ensures LoginOutcome(rows, users, email, password, deviceInfo, hash, issue, faults).value.user.email == ToLower(email)
  {
  }

  // ---------------------------------------------------------------------
  // signUp

  /** The row the account-creation call inserts: the lowercased email, the
      given names and hash, the id and role the call assigns, and the plan
      named "Unpaid" (`planIdOf` gives the id of the plan with a name); the
      account starts unverified. */
  function NewUserRecord(email: string, firstName: string, lastName: string, passwordHash: string,
                         created: CreatedUser, planIdOf: string -> string)
    : (user: UserRecord)
    ensures user.id == created.id && user.email == ToLower(email) && user.role == created.role
    ensures user.firstname == firstName && user.lastname == lastName && user.passwordHash == passwordHash
    ensures !user.isVerified && user.planId == planIdOf(UNPAID_PLAN)
  {
    UserRecord(created.id, ToLower(email), firstName, lastName, passwordHash, created.role, false, planIdOf(UNPAID_PLAN))
  }

  /** The session a sign-up returns: the role as the creation call gave it,
      not defaulted, and never verified. */
  function SignUpSession(user: UserRecord): (session: UserSession)
    ensures session.id == user.id && session.email == user.email && session.role == user.role
    ensures !session.isVerified
  {
    UserSession(user.id, user.email, user.firstname, user.lastname, user.role, false, user.planId)
  }

  /** Whether a sign-up reaches the account-creation call and it works:
      hashing and the email check work, the lowercased email has no row, and
      the creation succeeds. Token issuing comes after this. */
  predicate AccountCreated(users: map<string, UserRecord>, email: string, faults: SignUpFaults)
  {
    !faults.hashFails && !faults.checkThrows && !faults.checkFails && ToLower(email) !in users && !faults.createFails
  }

  /** The answer of `signUp`.
      - It succeeds exactly when the account is created and the tokens are
        issued.
      - A taken email is EMAIL_EXISTS; an email check that answers with an
        error is a SERVER_ERROR; a failed hash, a thrown email check, a
        failed creation and a throw while issuing tokens are all
        SIGNUP_FAILED.
      - The session is the new row's, unverified. */
  function SignUpOutcome(users: map<string, UserRecord>, email: string, password: string,
                         firstName: string, lastName: string, deviceInfo: string,
                         hash: string -> string, issue: (TokenClaims, string) -> TokenPair,
                         faults: SignUpFaults, created: CreatedUser, planIdOf: string -> string)
    : (r: Result<AuthResponse, AuthError>)
    ensures r.Success? <==> AccountCreated(users, email, faults) && !faults.tokensThrow
    ensures faults.hashFails || faults.checkThrows ==> r.Failure? && r.error.code == SignupFailed
    ensures !faults.hashFails && !faults.checkThrows && faults.checkFails ==>
              r == Failure(AuthError(CHECK_EMAIL_MESSAGE, ServerError, OriginalError))
    ensures !faults.hashFails && !faults.checkThrows && !faults.checkFails && ToLower(email) in users ==>
              r == Failure(AuthError(EMAIL_EXISTS_MESSAGE, EmailExists, NoDetails))
    ensures !faults.hashFails && !faults.checkThrows && !faults.checkFails && ToLower(email) !in users && faults.createFails ==>
              r.Failure? && r.error.code == SignupFailed
    ensures AccountCreated(users, email, faults) && faults.tokensThrow ==> r.Failure? && r.error.code == SignupFailed
    ensures r.Success? ==>
              var user := NewUserRecord(email, firstName, lastName, hash(password), created, planIdOf);
              r.value.user == SignUpSession(user)
              && r.value.tokens == issue(TokenClaims(user.id, user.email, user.role, user.planId), deviceInfo)
  {
    if faults.hashFails || faults.checkThrows then Failure(SignUpCatch(ThrownOther))
    else if faults.checkFails then Failure(SignUpCatch(ThrownAuth(AuthError(CHECK_EMAIL_MESSAGE, ServerError, OriginalError))))
    else if ToLower(email) in users then Failure(SignUpCatch(ThrownAuth(AuthError(EMAIL_EXISTS_MESSAGE, EmailExists, NoDetails))))
    else if faults.createFails then Failure(SignUpCatch(ThrownAuth(AuthError(SIGNUP_FAILED_MESSAGE, SignupFailed, OriginalError))))
    else if faults.tokensThrow then Failure(SignUpCatch(ThrownOther))
    else
      var user := NewUserRecord(email, firstName, lastName, hash(password), created, planIdOf);
      Success(AuthResponse(SignUpSession(user), issue(TokenClaims(user.id, user.email, user.role, user.planId), deviceInfo)))
  }

  /** The users table after a sign-up: one new row under the lowercased
      email once the account is created, nothing otherwise. Rows stay stored
      under their own emails. */
  function UsersAfterSignUp(users: map<string, UserRecord>, email: string, firstName: string, lastName: string,
                            passwordHash: string, created: CreatedUser, planIdOf: string -> string, inserted: bool)
    : (after: map<string, UserRecord>)
    ensures !inserted ==> after == users
    ensures inserted ==> after.Keys == users.Keys + {ToLower(email)}
    ensures inserted ==> after[ToLower(email)].planId == planIdOf(UNPAID_PLAN)
    ensures forall e :: e in users && e != ToLower(email) ==> e in after && after[e] == users[e]
    ensures KeyedByEmail(users) ==> KeyedByEmail(after)
  {
    if inserted then users[ToLower(email) := NewUserRecord(email, firstName, lastName, passwordHash, created, planIdOf)] else users
  }

  /** A sign-up whose token issuing throws reports SIGNUP_FAILED, yet the
      account it created stays: signing up again with the same email is
      refused as taken. */
  lemma FailedSignUpKeepsAccount(users: map<string, UserRecord>, email: string, password: string,
                                 firstName: string, lastName: string, deviceInfo: string,
                                 hash: string -> string, issue: (TokenClaims, string) -> TokenPair,
                                 faults: SignUpFaults, created: CreatedUser, planIdOf: string -> string)
    requires AccountCreated(users, email, faults) && faults.tokensThrow
    ensures SignUpOutcome(users, email, password, firstName, lastName, deviceInfo, hash, issue, faults, created, planIdOf).Failure?
    ensures
      var after := UsersAfterSignUp(users, email, firstName, lastName, hash(password), created, planIdOf, true);
      SignUpOutcome(after, email, password, firstName, lastName, deviceInfo, hash, issue, NO_SIGNUP_FAULTS, created, planIdOf)
        == Failure(AuthError(EMAIL_EXISTS_MESSAGE, EmailExists, NoDetails))
  {
  }

  /** Right after signing up, logging in with the same email and password
      succeeds, provided the count allows it and no call fails. */
  lemma SignUpThenLogin(users: map<string, UserRecord>, rows: map<RateLimitKey, AttemptRow>,
                        email: string, password: string, firstName: string, lastName: string, deviceInfo: string,
                        hash: string -> string, issue: (TokenClaims, string) -> TokenPair,
                        created: CreatedUser, planIdOf: string -> string)
    requires ToLower(email) !in users
    requires NewCount(rows, LoginKey(email)) <= 2
    ensures
      var after := UsersAfterSignUp(users, email, firstName, lastName, hash(password), created, planIdOf, true);
      LoginOutcome(rows, after, email, password, deviceInfo, hash, issue, NO_LOGIN_FAULTS).Success?
  {
  }

  // ---------------------------------------------------------------------
  // The service and its state

  /** The state `login` and `signUp` work on. */
  class AuthBackend {
    const attempts: AttemptTable
    const cookies: CookieJar
    var users: map<string, UserRecord>
    var audit: seq<AuditEvent>

    /** Every user row is stored under its own email. */
    predicate Valid()
      reads this
    {
      KeyedByEmail(users)
    }

    constructor(attempts: AttemptTable, cookies: CookieJar, users: map<string, UserRecord>)
      requires KeyedByEmail(users)
      ensures Valid()
      ensures this.attempts == attempts && this.cookies == cookies && this.users == users && audit == []
    {
      this.attempts := attempts;
      this.cookies := cookies;
      this.users := users;
      audit := [];
    }

    /** `login`: counts the attempt first, then checks the credentials; on
        success writes the session cookies, clears the count and records
        the event. A failure changes nothing but the count; a failure
        while issuing tokens leaves it counted too. */
    method Login(email: string, password: string, deviceInfo: string, now: int,
                 hash: string -> string, issue: (TokenClaims, string) -> TokenPair,
                 faults: LoginFaults, csrfBytes: seq<byte>)
      returns (r: Result<AuthResponse, AuthError>)
      requires Valid()
      requires |csrfBytes| == CSRF_TOKEN_BYTES
      modifies this, attempts, cookies
      ensures Valid()
      ensures r.Success? ==> r.value.user.email == ToLower(email)
      ensures r == LoginOutcome(old(attempts.rows), old(users), email, password, deviceInfo, hash, issue, faults)
      ensures attempts.rows == LoginRowsAfter(old(attempts.rows), email, now, faults, r.Success?)
      ensures users == old(users)
      ensures cookies.writes == if r.Success? then old(cookies.writes) + AuthTokenWrites(r.value.tokens.accessToken,
                                  r.value.tokens.refreshToken, r.value.tokens.expiresIn, CsrfToken(csrfBytes), cookies.encode)
                                else old(cookies.writes)
      ensures audit == if r.Success? then old(audit) + [AuditEvent(LoginSuccess, r.value.user.id, r.value.user.email, CLIENT_IP)]
                       else old(audit)
    {
      var identifier := ToLower(email);
      var check := RateLimitService.CheckAndIncrementAttempts(attempts, CLIENT_IP, identifier, now, faults.rateLimitStore);
      var passwordHash := hash(password);
      if check.Failure? {
        r := Failure(LoginCatch(ThrownRateLimit(check.error)));
      } else if faults.hashFails || faults.userQueryThrows {
        r := Failure(LoginCatch(ThrownOther));
      } else if faults.userQueryFails || identifier !in users || users[identifier].passwordHash != passwordHash {
        r := Failure(LoginCatch(ThrownAuth(INVALID_CREDENTIALS_ERROR)));
      } else if faults.tokensThrow {
        r := Failure(LoginCatch(ThrownOther));
      } else {
        var user := users[identifier];
        var tokens := issue(LoginClaims(user), deviceInfo);
        cookies.SetAuthTokens(tokens.accessToken, tokens.refreshToken, tokens.expiresIn, csrfBytes);
        RateLimitService.ResetAttempts(attempts, CLIENT_IP, identifier, faults.resetFails);
        audit := audit + [AuditEvent(LoginSuccess, user.id, user.email, CLIENT_IP)];
        r := Success(AuthResponse(LoginSession(user), tokens));
      }
    }

    /** `signUp`: checks the email, creates the account, writes the session
        cookies and records the event. It never touches the attempt table.
        A failure before the account is created changes nothing; a failure
        while issuing tokens keeps the new row. */
    method SignUp(email: string, password: string, firstName: string, lastName: string, deviceInfo: string,
                  hash: string -> string, issue: (TokenClaims, string) -> TokenPair,
                  faults: SignUpFaults, created: CreatedUser, planIdOf: string -> string, csrfBytes: seq<byte>)
      returns (r: Result<AuthResponse, AuthError>)
      requires Valid()
      requires |csrfBytes| == CSRF_TOKEN_BYTES
      modifies this, cookies
      ensures Valid()
      ensures r.Success? ==> r.value.user.email == ToLower(email)
      ensures r == SignUpOutcome(old(users), email, password, firstName, lastName, deviceInfo, hash, issue, faults, created, planIdOf)
      ensures users == UsersAfterSignUp(old(users), email, firstName, lastName, hash(password), created, planIdOf,
                                        AccountCreated(old(users), email, faults))
      ensures attempts.rows == old(attempts.rows)
      ensures cookies.writes == if r.Success? then old(cookies.writes) + AuthTokenWrites(r.value.tokens.accessToken,
                                  r.value.tokens.refreshToken, r.value.tokens.expiresIn, CsrfToken(csrfBytes), cookies.encode)
                                else old(cookies.writes)
      ensures audit == if r.Success? then old(audit) + [AuditEvent(SignupSuccess, r.value.user.id, r.value.user.email, CLIENT_IP)]
                       else old(audit)
    {
      var passwordHash := hash(password);
      var identifier := ToLower(email);
      if faults.hashFails || faults.checkThrows {
        r := Failure(SignUpCatch(ThrownOther));
      } else if faults.checkFails {
        r := Failure(SignUpCatch(ThrownAuth(AuthError(CHECK_EMAIL_MESSAGE, ServerError, OriginalError))));
      } else if identifier in users {
        r := Failure(SignUpCatch(ThrownAuth(AuthError(EMAIL_EXISTS_MESSAGE, EmailExists, NoDetails))));
      } else if faults.createFails {
        r := Failure(SignUpCatch(ThrownAuth(AuthError(SIGNUP_FAILED_MESSAGE, SignupFailed, OriginalError))));
      } else {
        var user := NewUserRecord(email, firstName, lastName, passwordHash, created, planIdOf);
        users := UsersAfterSignUp(users, email, firstName, lastName, passwordHash, created, planIdOf, true);
        assert users[identifier] == user;
        if faults.tokensThrow {
          r := Failure(SignUpCatch(ThrownOther));
        } else {
          var tokens := issue(TokenClaims(user.id, user.email, user.role, user.planId), deviceInfo);
          cookies.SetAuthTokens(tokens.accessToken, tokens.refreshToken, tokens.expiresIn, csrfBytes);
          audit := audit + [AuditEvent(SignupSuccess, user.id, user.email, CLIENT_IP)];
          r := Success(AuthResponse(SignUpSession(user), tokens));
        }
      }
    }
  }
}
