/** The `failed_attempts` table and the storage operations over it. A row
    holds the attempt count of one (address, identifier) key and the instant
    its window started. Each call to the backing store may fail; the failure
    is an explicit input. */
module RateLimitStorage {
  import opened Wrappers
  import opened RateLimitTypes
  import RateLimitValidator

  /** One row of `failed_attempts`. */
  datatype AttemptRow = AttemptRow(attemptCount: nat, lastResetMs: int)

  /** How a call to the backing store fails: it answers with an `error`, or it
      throws. */
  datatype StoreError = ErrorReturned | ErrorThrown

  /** The fixed 15-minute window the storage layer applies, in milliseconds. */
  const WINDOW_MS: int := 15 * 60 * 1000

  /** The storage layer's own expiry test, which agrees with the
      validator's reset test for a 15-minute window. */
  function WindowExpired(lastResetMs: int, now: int): (expired: bool)
    ensures expired <==> RateLimitValidator.ShouldResetAttempts(lastResetMs, 15, now)
  {
    now > lastResetMs + WINDOW_MS
  }

  /** The count the `increment_failed_attempts` call answers with. */
  function NewCount(rows: map<RateLimitKey, AttemptRow>, key: RateLimitKey): (count: nat)
    ensures count >= 1
    ensures key in rows ==> count == rows[key].attemptCount + 1
    ensures key !in rows ==> count == 1
  {
    if key in rows then rows[key].attemptCount + 1 else 1
  }

  /** The table after `increment_failed_attempts`: a new row at count 1 whose
      window starts now, or the existing row one higher. */
  function Incremented(rows: map<RateLimitKey, AttemptRow>, key: RateLimitKey, now: int): (after: map<RateLimitKey, AttemptRow>)
    ensures after.Keys == rows.Keys + {key}
    ensures after[key].attemptCount == NewCount(rows, key)
    ensures key !in rows ==> after[key].lastResetMs == now
    ensures key in rows ==> after[key].lastResetMs == rows[key].lastResetMs
    ensures forall k :: k in rows && k != key ==> after[k] == rows[k]
  {
    if key in rows then rows[key := rows[key].(attemptCount := rows[key].attemptCount + 1)]
    else rows[key := AttemptRow(1, now)]
  }

  /** The count `getAttempts` reports when the read succeeds: the stored
      count while the row's window is open, otherwise zero. */
  function StoredAttempts(rows: map<RateLimitKey, AttemptRow>, key: RateLimitKey, now: int): (count: nat)
    ensures count > 0 ==> key in rows && !WindowExpired(rows[key].lastResetMs, now)
    ensures key in rows && !WindowExpired(rows[key].lastResetMs, now) ==> count == rows[key].attemptCount
    ensures key !in rows ==> count == 0
  {
    if key !in rows || WindowExpired(rows[key].lastResetMs, now) then 0
    else rows[key].attemptCount
  }

  /** An expired window reads as zero attempts whatever the stored count. */
  lemma ExpiredReadsZero(rows: map<RateLimitKey, AttemptRow>, key: RateLimitKey, now: int)
    requires key in rows && WindowExpired(rows[key].lastResetMs, now)
    ensures StoredAttempts(rows, key, now) == 0
  {
  }

  /** After a reset the key reads as zero attempts, and every other key
      reads as before. */
  lemma ResetReadsZero(rows: map<RateLimitKey, AttemptRow>, key: RateLimitKey, other: RateLimitKey, now: int)
    requires other != key
    ensures StoredAttempts(rows - {key}, key, now) == 0
    ensures StoredAttempts(rows - {key}, other, now) == StoredAttempts(rows, other, now)
  {
  }

  /** An increment inside the window is seen by the next read at the same
      instant: the count read back is the count the increment answered. */
  lemma IncrementIsRead(rows: map<RateLimitKey, AttemptRow>, key: RateLimitKey, now: int)
    requires key in rows ==> !WindowExpired(rows[key].lastResetMs, now)
    ensures StoredAttempts(Incremented(rows, key, now), key, now) == NewCount(rows, key)
    ensures StoredAttempts(Incremented(rows, key, now), key, now) == StoredAttempts(rows, key, now) + 1
  {
  }

  /** The `failed_attempts` table. */
  class AttemptTable {
    var rows: map<RateLimitKey, AttemptRow>

    constructor ()
      ensures rows == map[]
    {
      rows := map[];
    }

    /** The `increment_failed_attempts` call: answers with the new count, or
        fails and changes nothing. Its server-side body is not part of this
        model beyond creating the row at 1 or adding 1. */
    method IncrementFailedAttemptsRpc(key: RateLimitKey, now: int, fault: Option<StoreError>)
      returns (response: Result<Option<int>, StoreError>)
      modifies this
      ensures fault.None? ==> rows == Incremented(old(rows), key, now) && response == Success(Some(NewCount(old(rows), key)))
      ensures fault.Some? ==> rows == old(rows) && response == Failure(fault.value)
    {
      if fault.Some? {
        return Failure(fault.value);
      }
      var count := NewCount(rows, key);
      rows := Incremented(rows, key, now);
      response := Success(Some(count));
    }

    /** `delete().eq('ip_address', …).eq('identifier', …)`: removes exactly the
        row of `key`, or fails and changes nothing. */
    method DeleteRow(key: RateLimitKey, fails: bool) returns (outcome: Outcome<StoreError>)
      modifies this
      ensures fails ==> rows == old(rows) && outcome == Fail(ErrorReturned)
      ensures !fails ==> rows == old(rows) - {key} && outcome == Pass
    {
      if fails {
        return Fail(ErrorReturned);
      }
      rows := rows - {key};
      outcome := Pass;
    }

    /** `getAttempts`: the count of `key` while its window is open. A failed
        read, a missing row and an expired row all give zero; an expired row
        is deleted on the way, and a failure of that delete is swallowed too.
        It never fails. */
    method GetAttempts(key: RateLimitKey, now: int, readFails: bool, deleteFails: bool) returns (count: nat)
      modifies this
      ensures readFails ==> count == 0 && rows == old(rows)
      ensures !readFails ==> count == StoredAttempts(old(rows), key, now)
      ensures rows == if !readFails && key in old(rows) && WindowExpired(old(rows)[key].lastResetMs, now) && !deleteFails
                      then old(rows) - {key} else old(rows)
    {
      if readFails {
        return 0;
      }
      if key !in rows {
        return 0;
      }
      var row := rows[key];
      if WindowExpired(row.lastResetMs, now) {
        var _ := ResetAttempts(key, deleteFails);
        return 0;
      }
      count := row.attemptCount;
    }

    /** `incrementAttempts`: the increment call, with its failure passed on to
        the caller. */
    method IncrementAttempts(key: RateLimitKey, now: int, fault: Option<StoreError>) returns (outcome: Outcome<StoreError>)
      modifies this
      ensures fault.None? ==> rows == Incremented(old(rows), key, now) && outcome == Pass
      ensures fault.Some? ==> rows == old(rows) && outcome == Fail(fault.value)
    {
      var response := IncrementFailedAttemptsRpc(key, now, fault);
      if response.Failure? {
        return Fail(response.error);
      }
      outcome := Pass;
    }

    /** `resetAttempts`: deletes the row of `key`, with a failure passed on to
        the caller. */
    method ResetAttempts(key: RateLimitKey, fails: bool) returns (outcome: Outcome<StoreError>)
      modifies this
      ensures fails ==> rows == old(rows) && outcome.Fail?
      ensures !fails ==> rows == old(rows) - {key} && outcome == Pass
    {
      outcome := DeleteRow(key, fails);
    }
  }
}
