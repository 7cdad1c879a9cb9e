/** The idempotency store and its service (Service/IdempotencyService.java).
    The shared Redis store is a map from store key to a value with an
    absolute expiry instant; `setIfAbsent` is one atomic step and `set` an
    unconditional overwrite. A store or codec failure is an explicit `fails`
    argument. Redis never shows a key whose TTL has run out, so every read
    and every conditional write looks only at live entries; `Evict` removes
    the dead ones and changes no answer. */
module IdempotencyStore {
  import opened Wrappers
  import opened Time
  import opened IdempotencyRecords

  const KeyPrefix: string := "idempotency:"

  /** The Redis key of an idempotency key. */
  function StoreKey(idempotencyKey: string): string {
    KeyPrefix + idempotencyKey
  }

  /** What a Redis value holds: the JSON of a record, or text that does not
      deserialize into one. */
  datatype StoredValue = Json(record: IdempotencyRecord) | Unreadable

  datatype Entry = Entry(value: StoredValue, expiresAt: Instant)

  type Store = map<string, Entry>

  /** The key exists and its TTL has not run out at `now`. */
  predicate Live(s: Store, k: string, now: Instant) {
    k in s && now < s[k].expiresAt
  }

  // ---- Redis primitives -------------------------------------------------

  /** SET key value PX ttl NX: writes only when no live value exists and
      answers whether it wrote. */
  function SetIfAbsent(s: Store, k: string, v: StoredValue, ttl: Duration, now: Instant): (Store, bool) {
    if Live(s, k, now) then (s, false) else (s[k := Entry(v, now + ttl)], true)
  }

  /** SET key value PX ttl: overwrites whatever is there. */
  function Set(s: Store, k: string, v: StoredValue, ttl: Duration, now: Instant): Store {
    s[k := Entry(v, now + ttl)]
  }

  /** GET key. */
  function Get(s: Store, k: string, now: Instant): Option<StoredValue> {
    if Live(s, k, now) then Some(s[k].value) else None
  }

  // ---- The service operations, as functions of the store ---------------

  datatype Acquisition = Acquisition(store: Store, acquired: Option<IdempotencyRecord>)

  /** tryAcquire(idempotencyKey, inProgressTtl) at time `now`. */
  function AfterTryAcquire(s: Store, idempotencyKey: string, inProgressTtl: Duration, now: Instant, fails: bool): (r: Acquisition)
    ensures r.acquired.Some? <==> !fails && !Live(s, StoreKey(idempotencyKey), now)
    ensures r.acquired.Some? ==> r.acquired.value == InProgressRecord(now)
    ensures r.acquired.Some? ==>
      r.store == s[StoreKey(idempotencyKey) := Entry(Json(InProgressRecord(now)), now + inProgressTtl)]
    ensures r.acquired.None? ==> r.store == s
    ensures forall k :: k != StoreKey(idempotencyKey) ==> (k in r.store <==> k in s)
    ensures forall k :: k != StoreKey(idempotencyKey) && k in s ==> r.store[k] == s[k]
  {
    var record := InProgressRecord(now);
    if fails then Acquisition(s, None)
    else
      var (s', acquired) := SetIfAbsent(s, StoreKey(idempotencyKey), Json(record), inProgressTtl, now);
      if acquired then Acquisition(s', Some(record)) else Acquisition(s, None)
  }

  /** fetch(idempotencyKey) at time `now`: never writes. */
  function FetchResult(s: Store, idempotencyKey: string, now: Instant, fails: bool): (r: Option<IdempotencyRecord>)
    ensures r.None? <==> fails || !Live(s, StoreKey(idempotencyKey), now) || s[StoreKey(idempotencyKey)].value.Unreadable?
    ensures r.Some? ==> s[StoreKey(idempotencyKey)].value == Json(r.value)
  {
    if fails then None
    else
      match Get(s, StoreKey(idempotencyKey), now)
      case None => None
      case Some(Unreadable) => None
      case Some(Json(record)) => Some(record)
  }

  /** complete(idempotencyKey, httpStatus, responseBody, startedAt,
      completedTtl) at time `now`: overwrites, and a failure is swallowed. */
  function AfterComplete(s: Store, idempotencyKey: string, httpStatus: int, responseBody: string,
                         startedAt: Instant, completedTtl: Duration, now: Instant, fails: bool): (r: Store)
    ensures fails ==> r == s
    ensures !fails ==> (StoreKey(idempotencyKey) in r
      && r[StoreKey(idempotencyKey)].value == Json(CompletedRecord(httpStatus, responseBody, startedAt))
      && r[StoreKey(idempotencyKey)].expiresAt == now + completedTtl)
    ensures forall k :: k != StoreKey(idempotencyKey) ==> (k in r <==> k in s)
    ensures forall k :: k != StoreKey(idempotencyKey) && k in s ==> r[k] == s[k]
  {
    if fails then s
    else Set(s, StoreKey(idempotencyKey), Json(CompletedRecord(httpStatus, responseBody, startedAt)), completedTtl, now)
  }

  /** Redis TTL eviction at time `now`: exactly the live entries stay. */
  function AfterEvict(s: Store, now: Instant): (r: Store)
    ensures forall k :: k in r <==> Live(s, k, now)
    ensures forall k :: k in r ==> k in s && r[k] == s[k]
  {
    map k | k in s && Live(s, k, now) :: s[k]
  }

  /** isExpired(record, inProgressTtl): the record's own rule, given the TTL
      truncated to whole seconds. */
  predicate IsExpired(record: IdempotencyRecord, inProgressTtl: Duration, now: Instant)
    ensures inProgressTtl % NanosPerSecond == 0 ==>
      (IsExpired(record, inProgressTtl, now) <==> record.status == InProgress && record.startedAt + inProgressTtl < now)
    ensures record.status == InProgress && record.startedAt + inProgressTtl < now ==> IsExpired(record, inProgressTtl, now)
  {
    record.IsExpired(GetSeconds(inProgressTtl), now)
  }

  // ---- Properties -------------------------------------------------------

  /** Distinct idempotency keys never share a Redis key. */
  lemma StoreKeyInjective(a: string, b: string)
    requires StoreKey(a) == StoreKey(b)
    ensures a == b
  {
    assert a == StoreKey(a)[|KeyPrefix|..];
    assert b == StoreKey(b)[|KeyPrefix|..];
  }

  /** A successful acquire is visible to every fetch during its TTL. */
  lemma AcquireThenFetch(s: Store, idempotencyKey: string, ttl: Duration, now: Instant, fails: bool, later: Instant)
    requires AfterTryAcquire(s, idempotencyKey, ttl, now, fails).acquired.Some?
    requires later < now + ttl
    ensures FetchResult(AfterTryAcquire(s, idempotencyKey, ttl, now, fails).store, idempotencyKey, later, false)
      == Some(InProgressRecord(now))
  {
  }

  /** Conditional create: while an acquired record is held, no second
      acquire of the same key succeeds, and the held record is left as it
      is. */
  lemma AcquireExclusive(s: Store, idempotencyKey: string, ttl1: Duration, t1: Instant, fails1: bool,
                         ttl2: Duration, t2: Instant, fails2: bool)
    requires AfterTryAcquire(s, idempotencyKey, ttl1, t1, fails1).acquired.Some?
    requires t2 < t1 + ttl1
    ensures var s1 := AfterTryAcquire(s, idempotencyKey, ttl1, t1, fails1).store;
      AfterTryAcquire(s1, idempotencyKey, ttl2, t2, fails2) == Acquisition(s1, None)
  {
  }

  /** Unconditional overwrite: after a successful complete, a fetch during
      the completed TTL returns exactly the COMPLETED record, whatever was
      stored before. */
  lemma CompleteThenFetch(s: Store, idempotencyKey: string, httpStatus: int, responseBody: string,
                          startedAt: Instant, ttl: Duration, now: Instant, later: Instant)
    requires later < now + ttl
    ensures FetchResult(AfterComplete(s, idempotencyKey, httpStatus, responseBody, startedAt, ttl, now, false),
                        idempotencyKey, later, false)
      == Some(CompletedRecord(httpStatus, responseBody, startedAt))
  {
  }

  /** A failed acquire gives the same answer as a key that is already held,
      so the caller cannot tell the two apart. */
  lemma AcquireFailureLooksHeld(s: Store, idempotencyKey: string, ttl: Duration, now: Instant)
    requires Live(s, StoreKey(idempotencyKey), now)
    ensures AfterTryAcquire(s, idempotencyKey, ttl, now, true) == AfterTryAcquire(s, idempotencyKey, ttl, now, false)
  {
  }

  /** Eviction is invisible to every later store operation. */
  lemma EvictUnobservable(s: Store, at: Instant, idempotencyKey: string, now: Instant, ttl: Duration, fails: bool)
    requires at <= now
    ensures FetchResult(AfterEvict(s, at), idempotencyKey, now, fails) == FetchResult(s, idempotencyKey, now, fails)
    ensures AfterTryAcquire(AfterEvict(s, at), idempotencyKey, ttl, now, fails).acquired
      == AfterTryAcquire(s, idempotencyKey, ttl, now, fails).acquired
  {
    var k := StoreKey(idempotencyKey);
    assert Live(AfterEvict(s, at), k, now) <==> Live(s, k, now);
  }

  /** isExpired ignores the sub-second part of the TTL. */
  lemma ExpiryIgnoresSubSeconds(record: IdempotencyRecord, ttl: Duration, now: Instant)
    ensures IsExpired(record, ttl, now) == IsExpired(record, OfSeconds(GetSeconds(ttl)), now)
  {
    assert GetSeconds(OfSeconds(GetSeconds(ttl))) == GetSeconds(ttl);
  }

  /** With a whole-second TTL, a record written by tryAcquire is never
      reported expired while Redis still holds it. */
  lemma WholeSecondTtlNotExpiredWhileLive(s: Store, idempotencyKey: string, ttl: Duration, now: Instant, later: Instant)
    requires ttl % NanosPerSecond == 0
    requires AfterTryAcquire(s, idempotencyKey, ttl, now, false).acquired.Some?
    requires Live(AfterTryAcquire(s, idempotencyKey, ttl, now, false).store, StoreKey(idempotencyKey), later)
    ensures !IsExpired(InProgressRecord(now), ttl, later)
  {
    assert OfSeconds(GetSeconds(ttl)) == ttl;
  }

  /** With a TTL of 1.5 seconds, a record acquired at time 0 is reported
      expired at 1.2 seconds although Redis still holds it. */
  lemma FractionalTtlExpiresWhileLive(idempotencyKey: string)
    ensures var a := AfterTryAcquire(map[], idempotencyKey, 1_500_000_000, 0, false);
      && a.acquired == Some(InProgressRecord(0))
      && Live(a.store, StoreKey(idempotencyKey), 1_200_000_000)
      && IsExpired(InProgressRecord(0), 1_500_000_000, 1_200_000_000)
  {
  }

  /** The service: a handle on the shared store. */
  class IdempotencyService {
    var store: Store

    constructor ()
      ensures store == map[]
    {
      store := map[];
    }

    /** One atomic setIfAbsent; on failure, nothing is written and the
        answer is empty. */
    method TryAcquire(idempotencyKey: string, inProgressTtl: Duration, now: Instant, fails: bool)
      returns (r: Option<IdempotencyRecord>)
      modifies this
      ensures Acquisition(store, r) == AfterTryAcquire(old(store), idempotencyKey, inProgressTtl, now, fails)
    {
      var redisKey := StoreKey(idempotencyKey);
      var record := InProgressRecord(now);
      if fails {
        return None;
      }
      var (s', acquired) := SetIfAbsent(store, redisKey, Json(record), inProgressTtl, now);
      if acquired {
        store := s';
        r := Some(record);
      } else {
        r := None;
      }
    }

    /** A read: answers the stored record, or empty when the key is
        missing, the value does not decode or the store fails. */
    method Fetch(idempotencyKey: string, now: Instant, fails: bool) returns (r: Option<IdempotencyRecord>)
      ensures r == FetchResult(store, idempotencyKey, now, fails)
    {
      if fails {
        return None;
      }
      var json := Get(store, StoreKey(idempotencyKey), now);
      if json.Some? && json.value.Json? {
        r := Some(json.value.record);
      } else {
        r := None;
      }
    }

    /** One unconditional set of the COMPLETED record; a failure leaves the
        store as it was and is not reported. */
    method Complete(idempotencyKey: string, httpStatus: int, responseBody: string,
                    startedAt: Instant, completedTtl: Duration, now: Instant, fails: bool)
      modifies this
      ensures store == AfterComplete(old(store), idempotencyKey, httpStatus, responseBody, startedAt, completedTtl, now, fails)
    {
      var record := CompletedRecord(httpStatus, responseBody, startedAt);
      if !fails {
        store := Set(store, StoreKey(idempotencyKey), Json(record), completedTtl, now);
      }
    }

    /** Redis's own TTL eviction. */
    method Evict(now: Instant)
      modifies this
      ensures store == AfterEvict(old(store), now)
    {
      store := map k | k in store && Live(store, k, now) :: store[k];
    }
  }
}
