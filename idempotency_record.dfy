/** The value kept in the idempotency store for one idempotency key
    (Model/IdempotencyRecord.java). A record is immutable: the store only
    ever replaces one record by another. */
module IdempotencyRecords {
  import opened Wrappers
  import opened Time

  datatype Status = InProgress | Completed

  datatype IdempotencyRecord = IdempotencyRecord(
    status: Status,
    httpStatus: Option<int>,
    responseBody: Option<string>,
    startedAt: Instant)
  {
    /** isExpired(inProgressTtlSeconds), with the clock reading passed in as
        `now`: an IN_PROGRESS record whose start plus the TTL lies strictly
        before now. */
    predicate IsExpired(inProgressTtlSeconds: int, now: Instant)
      ensures IsExpired(inProgressTtlSeconds, now) <==>
        status == InProgress && now - startedAt > inProgressTtlSeconds * NanosPerSecond
    {
      status == InProgress && PlusSeconds(startedAt, inProgressTtlSeconds) < now
    }
  }

  /** The shape the two factories give a record: the response fields are
      set exactly when the status is COMPLETED. */
  predicate WellFormed(r: IdempotencyRecord) {
    (r.status == Completed) == r.httpStatus.Some? && r.httpStatus.Some? == r.responseBody.Some?
  }

  /** IdempotencyRecord.inProgress(), stamped with the clock reading `now`. */
  function InProgressRecord(now: Instant): (r: IdempotencyRecord)
    ensures WellFormed(r) && r.status == InProgress
    ensures r.httpStatus.None? && r.responseBody.None? && r.startedAt == now
  {
    IdempotencyRecord(InProgress, None, None, now)
  }

  /** IdempotencyRecord.completed(httpStatus, responseBody, startedAt). */
  function CompletedRecord(httpStatus: int, responseBody: string, startedAt: Instant): (r: IdempotencyRecord)
    ensures WellFormed(r) && r.status == Completed
    ensures r.httpStatus == Some(httpStatus) && r.responseBody == Some(responseBody)
    ensures r.startedAt == startedAt
  {
    IdempotencyRecord(Completed, Some(httpStatus), Some(responseBody), startedAt)
  }

  /** A COMPLETED record never counts as expired, whatever the TTL and the
      time. */
  lemma CompletedNeverExpires(r: IdempotencyRecord, ttlSeconds: int, now: Instant)
    requires r.status == Completed
    ensures !r.IsExpired(ttlSeconds, now)
  {
  }

  /** An IN_PROGRESS record expires only strictly after start plus TTL: at
      the boundary instant it is still live, one nanosecond later it is
      expired. */
  lemma ExpiryBoundary(r: IdempotencyRecord, ttlSeconds: int)
    requires r.status == InProgress
    ensures !r.IsExpired(ttlSeconds, r.startedAt + OfSeconds(ttlSeconds))
    ensures r.IsExpired(ttlSeconds, r.startedAt + OfSeconds(ttlSeconds) + 1)
  {
  }

  /** Once expired, a record stays expired at every later time. */
  lemma ExpiryMonotone(r: IdempotencyRecord, ttlSeconds: int, now: Instant, later: Instant)
    requires now <= later && r.IsExpired(ttlSeconds, now)
    ensures r.IsExpired(ttlSeconds, later)
  {
  }

  /** A record just created by inProgress() with a non-negative TTL is not
      expired at its creation time. */
  lemma FreshRecordNotExpired(now: Instant, ttlSeconds: int)
    requires ttlSeconds >= 0
    ensures !InProgressRecord(now).IsExpired(ttlSeconds, now)
  {
  }
}
