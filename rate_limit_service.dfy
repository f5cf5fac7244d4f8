/** The login attempt limiter: every check increments the count of the
    (address, identifier) key first and then classifies the new count as
    allowed, warning or locked. Warning and locked are reported as errors. */
module RateLimitService {
  import opened Wrappers
  import opened Text
  import opened RateLimitTypes
  import opened RateLimitStorage
  import RateLimitValidator

  const MAX_ATTEMPTS: int := 5
  /** Declared by the service but used by none of its operations. */
  const WINDOW_MINUTES: int := 15

  const LOCKED_MESSAGE: string := "Too many failed attempts." + " Please try again after 15 minutes."
  const STANDARD_MESSAGE: string := "Invalid email or password"
  const STORE_FAILED_MESSAGE: string := "Unable to process login attempt"
  const CHECK_FAILED_MESSAGE: string := "Rate limit check failed"

  datatype LimitStatus = Locked | Warning

  /** The `RateLimitError` the service throws; status and remaining count are
      absent when the store failed. */
  datatype RateLimitError = RateLimitError(message: string, status: Option<LimitStatus>, remainingAttempts: Option<int>)

  /** The count the service works with: a missing or zero answer counts as 0. */
  function CurrentAttempts(data: Option<int>): (count: int)
    ensures data.None? ==> count == 0
    ensures data.Some? ==> count == data.value
  {
    if data.None? || data.value == 0 then 0 else data.value
  }

  const WARNING_TAIL: string := " remaining before temporary lockout."

  const WARNING_HEAD: string := "Warning: "

  /** The warning text, with `attempt` in the singular for one remaining:
      it opens with "Warning: " followed by the rendered count, ends with
      the fixed tail, and is never the lockout text. */
  function WarningMessage(remaining: int): (msg: string)
    ensures |WARNING_HEAD + IntToString(remaining)| < |msg|
    ensures msg[..|WARNING_HEAD + IntToString(remaining)|] == WARNING_HEAD + IntToString(remaining)
    ensures msg[|WARNING_HEAD + IntToString(remaining)|] == ' '
    ensures |WARNING_TAIL| < |msg| && msg[|msg| - |WARNING_TAIL|..] == WARNING_TAIL
    ensures msg != LOCKED_MESSAGE
  {
    var head := WARNING_HEAD + IntToString(remaining);
    var msg := head + (" login " + (if remaining == 1 then "attempt" else "attempts") + WARNING_TAIL);
    assert msg[0] == WARNING_HEAD[0] == 'W';
    msg
  }

  /** Different remaining counts give different warnings, so the count can
      be read back from the text. */
  lemma WarningMessageInjective(a: int, b: int)
    requires WarningMessage(a) == WarningMessage(b)
    ensures a == b
  {
    var msg := WarningMessage(a);
    var sa, sb := IntToString(a), IntToString(b);
    IntToStringRoundTrip(a);
    IntToStringRoundTrip(b);
    var h := |WARNING_HEAD|;
    assert msg[..h + |sa|] == WARNING_HEAD + sa;
    assert msg[..h + |sb|] == WARNING_HEAD + sb;
    assert |sa| == |sb|;
    assert sa == (WARNING_HEAD + sa)[h..] == (WARNING_HEAD + sb)[h..] == sb;
  }

  /** The warning text for the last remaining attempt, in the singular. */
  lemma WarningMessageOne()
    ensures WarningMessage(1) == "Warning: 1 login attempt" + WARNING_TAIL
  {
    assert IntToString(1) == "1";
    assert "Warning: " + "1" + " login " + "attempt" == "Warning: 1 login attempt";
  }

  /** The warning text for two remaining attempts, in the plural. */
  lemma WarningMessageTwo()
    ensures WarningMessage(2) == "Warning: 2 login attempts" + WARNING_TAIL
  {
    assert IntToString(2) == "2";
    assert "Warning: " + "2" + " login " + "attempts" == "Warning: 2 login attempts";
  }

  /** The decision for the count the increment answered with. Counts up to 2
      are allowed with `5 - count` remaining; counts 3 and 4 are a warning
      carrying `5 - count`; counts of 5 and more are locked with nothing
      remaining. Locked takes priority: no count is both. */
  function ClassifyCount(count: int): (r: Result<RateLimitResult, RateLimitError>)
    ensures count >= MAX_ATTEMPTS <==> r.Failure? && r.error.status == Some(Locked)
    ensures count >= MAX_ATTEMPTS ==> r.error == RateLimitError(LOCKED_MESSAGE, Some(Locked), Some(0))
    ensures 3 <= count < MAX_ATTEMPTS <==> r.Failure? && r.error.status == Some(Warning)
    ensures 3 <= count < MAX_ATTEMPTS ==> r.error == RateLimitError(WarningMessage(MAX_ATTEMPTS - count), Some(Warning), Some(MAX_ATTEMPTS - count))
    ensures count <= 2 <==> r.Success?
    ensures count <= 2 ==> r.value == RateLimitResult(false, MAX_ATTEMPTS - count, false, Some(STANDARD_MESSAGE))
    ensures r.Failure? ==> r.error.status.Some?
  {
    var remainingAttempts := MAX_ATTEMPTS - count;
    if remainingAttempts <= 0 then
      Failure(RateLimitError(LOCKED_MESSAGE, Some(Locked), Some(0)))
    else if remainingAttempts <= 2 then
      Failure(RateLimitError(WarningMessage(remainingAttempts), Some(Warning), Some(remainingAttempts)))
    else
      Success(RateLimitResult(false, remainingAttempts, false, Some(STANDARD_MESSAGE)))
  }

  /** The whole check for one answer of the increment call. A failed call is
      never a normal return: an answered error becomes "Unable to process
      login attempt", a thrown one "Rate limit check failed", both without a
      status. */
  function Classify(response: Result<Option<int>, StoreError>): (r: Result<RateLimitResult, RateLimitError>)
    ensures response.Failure? ==> r.Failure? && r.error.status.None? && r.error.remainingAttempts.None?
    ensures response == Failure(ErrorReturned) ==> r.error.message == STORE_FAILED_MESSAGE
    ensures response == Failure(ErrorThrown) ==> r.error.message == CHECK_FAILED_MESSAGE
    ensures response.Success? ==> r == ClassifyCount(CurrentAttempts(response.value))
  {
    match response
    case Failure(ErrorReturned) => Failure(RateLimitError(STORE_FAILED_MESSAGE, None, None))
    case Failure(ErrorThrown) => Failure(RateLimitError(CHECK_FAILED_MESSAGE, None, None))
    case Success(data) => ClassifyCount(CurrentAttempts(data))
  }

  /** Locked is exactly the validator's rate-limited test under this
      service's policy. */
  lemma LockedMeansRateLimited(count: int)
    ensures ClassifyCount(count).Failure? && ClassifyCount(count).error.status == Some(Locked)
            <==> RateLimitValidator.IsRateLimited(count, RateLimitConfig(MAX_ATTEMPTS, WINDOW_MINUTES))
  {
  }

  /** A locked key stays locked as its count grows. */
  lemma LockedIsPermanent(count: int, more: int)
    requires count <= more
    requires ClassifyCount(count).Failure? && ClassifyCount(count).error.status == Some(Locked)
    ensures ClassifyCount(more).Failure? && ClassifyCount(more).error.status == Some(Locked)
  {
  }

  /** `checkAndIncrementAttempts`: increments the key's count through the
      store and classifies the answer. */
  method CheckAndIncrementAttempts(table: AttemptTable, ipAddress: string, identifier: string, now: int, fault: Option<StoreError>)
    returns (r: Result<RateLimitResult, RateLimitError>)
    modifies table
    ensures fault.None? ==> table.rows == Incremented(old(table.rows), RateLimitKey(ipAddress, identifier), now)
    ensures fault.None? ==> r == ClassifyCount(NewCount(old(table.rows), RateLimitKey(ipAddress, identifier)))
    ensures fault.Some? ==> table.rows == old(table.rows) && r == Classify(Failure(fault.value))
  {
    var response := table.IncrementFailedAttemptsRpc(RateLimitKey(ipAddress, identifier), now, fault);
    r := Classify(response);
  }

  /** `resetAttempts`: deletes the key's row; a failure of the store is
      swallowed, so it never fails. */
  method ResetAttempts(table: AttemptTable, ipAddress: string, identifier: string, deleteFails: bool)
    modifies table
    ensures table.rows == if deleteFails then old(table.rows) else old(table.rows) - {RateLimitKey(ipAddress, identifier)}
  {
    var _ := table.DeleteRow(RateLimitKey(ipAddress, identifier), deleteFails);
  }
}
