/** The per-request idempotency decision (Filter/IdempotencyGlobalFilter.java).
    A request runs through `filter` in passes: each pass is one tryAcquire,
    followed, when that answers empty, by one fetch. A restart re-enters
    `filter` with a null chain, so the next pass that acquires does not
    reach the backend. `passes` lists what the store does in each pass
    (the instant of each call and whether it fails); running out of passes
    is the model's bound on restarts. */
module IdempotencyFilter {
  import opened Wrappers
  import opened Time
  import opened IdempotencyRecords
  import opened TtlResolution
  import opened IdempotencyStore

  const IdempotencyKeyHeader: string := "Idempotency-Key"
  const ReplayHeader: string := "X-Idempotent-Replay"
  const RetryAfterHeader: string := "Retry-After"
  const ApplicationJson: string := "application/json"
  const Accepted: int := 202
  const Ok: int := 200

  /** HTTP methods that are not naturally idempotent. */
  const IdempotentMethods: set<string> := {"POST", "PUT", "PATCH"}

  /** The parts of a request the filter reads. A header name maps to its
      values in arrival order. */
  datatype Request = Request(httpMethod: string, path: string, headers: map<string, seq<string>>)

  predicate RequiresIdempotency(req: Request)
    ensures RequiresIdempotency(req) <==> req.httpMethod == "POST" || req.httpMethod == "PUT" || req.httpMethod == "PATCH"
  {
    req.httpMethod in IdempotentMethods
  }

  /** The first `Idempotency-Key` value; none when the header is missing or
      has no values. An empty value is still a key. */
  function ExtractIdempotencyKey(req: Request): (r: Option<string>)
    ensures r.None? <==> IdempotencyKeyHeader !in req.headers || req.headers[IdempotencyKeyHeader] == []
    ensures r.Some? ==> r.value == req.headers[IdempotencyKeyHeader][0]
  {
    if IdempotencyKeyHeader !in req.headers || |req.headers[IdempotencyKeyHeader]| == 0 then None
    else Some(req.headers[IdempotencyKeyHeader][0])
  }

  /** What the store does during one pass. */
  datatype Pass = Pass(acquireAt: Instant, acquireFails: bool, fetchAt: Instant, fetchFails: bool)

  /** How a request ends.
      - Forward: the chain runs on the untouched exchange.
      - Execute: the chain runs behind a capture decorator.
      - Replay: the stored record is written back.
      - Processing: 202, the backend is not called.
      - NullChain: the null chain is invoked, after the first-request
        headers were added when a key was acquired.
      - Unfinished: the passes ran out while restarting. */
  datatype Decision =
    | Forward
    | Execute(key: string, startedAt: Instant, completedTtl: Duration)
    | Replay(key: string, record: IdempotencyRecord)
    | Processing(key: string)
    | NullChain(acquiredKey: Option<string>)
    | Unfinished

  datatype Outcome = Outcome(store: Store, decision: Decision)

  /** The branch choice of handleRetryRequest for what fetch answered. */
  datatype RetryChoice = Restart | ReturnCached(record: IdempotencyRecord) | StillProcessing

  function ChooseRetry(fetched: Option<IdempotencyRecord>, inProgressTtl: Duration, now: Instant): (r: RetryChoice)
    ensures r.Restart? <==> fetched.None? || (fetched.value.status == InProgress && IsExpired(fetched.value, inProgressTtl, now))
    ensures r.ReturnCached? <==> fetched.Some? && fetched.value.status == Completed
    ensures r.ReturnCached? ==> r.record == fetched.value
  {
    match fetched
    case None => Restart
    case Some(record) =>
      if record.status == Completed then ReturnCached(record)
      else if IsExpired(record, inProgressTtl, now) then Restart
      else StillProcessing
  }

  /** filter(exchange, chain); `chained` is false once the chain is null. */
  function FilterRun(cfg: IdempotencyConfig, req: Request, chained: bool, s: Store, passes: seq<Pass>): (r: Outcome)
    decreases |passes|, 1
    ensures r.decision.Forward? <==> chained && (!RequiresIdempotency(req) || ExtractIdempotencyKey(req).None?)
    ensures r.decision.Execute? ==> (chained && |passes| > 0 && r.decision.startedAt == passes[0].acquireAt
      && r.decision.completedTtl == Resolve(cfg, req.httpMethod, req.path).completed
      && ExtractIdempotencyKey(req) == Some(r.decision.key))
    ensures r.decision.Replay? ==> r.decision.record.status == Completed && ExtractIdempotencyKey(req) == Some(r.decision.key)
    ensures r.decision.Processing? ==> ExtractIdempotencyKey(req) == Some(r.decision.key)
    ensures (chained && RequiresIdempotency(req) && ExtractIdempotencyKey(req).Some? && |passes| > 0
      && !passes[0].acquireFails
      && !Live(s, StoreKey(ExtractIdempotencyKey(req).value), passes[0].acquireAt)) ==>
      r.decision == Execute(ExtractIdempotencyKey(req).value, passes[0].acquireAt,
                            Resolve(cfg, req.httpMethod, req.path).completed)
  {
    if !RequiresIdempotency(req) then Outcome(s, if chained then Forward else NullChain(None))
    else
      match ExtractIdempotencyKey(req)
      case None => Outcome(s, if chained then Forward else NullChain(None))
      case Some(key) =>
        var ttl := Resolve(cfg, req.httpMethod, req.path);
        if |passes| == 0 then Outcome(s, Unfinished)
        else
          var a := AfterTryAcquire(s, key, ttl.inProgress, passes[0].acquireAt, passes[0].acquireFails);
          match a.acquired
          case Some(record) =>
            Outcome(a.store, if chained then Execute(key, record.startedAt, ttl.completed) else NullChain(Some(key)))
          case None => RetryRun(cfg, req, key, ttl, a.store, passes)
  }

  /** handleRetryRequest(exchange, key, ttl) in the first of `passes`. */
  function RetryRun(cfg: IdempotencyConfig, req: Request, key: string, ttl: TtlConfig, s: Store, passes: seq<Pass>): (r: Outcome)
    requires |passes| > 0 && ExtractIdempotencyKey(req) == Some(key)
    decreases |passes|, 0
    ensures !r.decision.Forward? && !r.decision.Execute?
    ensures var fetched := FetchResult(s, key, passes[0].fetchAt, passes[0].fetchFails);
      fetched.None? ==> r == FilterRun(cfg, req, false, s, passes[1..])
    ensures var fetched := FetchResult(s, key, passes[0].fetchAt, passes[0].fetchFails);
      fetched.Some? && fetched.value.status == InProgress && IsExpired(fetched.value, ttl.inProgress, passes[0].fetchAt) ==>
      r == FilterRun(cfg, req, false, s, passes[1..])
    ensures var fetched := FetchResult(s, key, passes[0].fetchAt, passes[0].fetchFails);
      fetched.Some? && fetched.value.status == InProgress && !IsExpired(fetched.value, ttl.inProgress, passes[0].fetchAt) ==>
      r == Outcome(s, Processing(key))
    ensures var fetched := FetchResult(s, key, passes[0].fetchAt, passes[0].fetchFails);
      fetched.Some? && fetched.value.status == Completed ==> r == Outcome(s, Replay(key, fetched.value))
    ensures r.decision.Replay? ==> r.decision.record.status == Completed && r.decision.key == key
    ensures r.decision.Processing? ==> r.decision.key == key
  {
    match ChooseRetry(FetchResult(s, key, passes[0].fetchAt, passes[0].fetchFails), ttl.inProgress, passes[0].fetchAt)
    case Restart => FilterRun(cfg, req, false, s, passes[1..])
    case ReturnCached(record) => Outcome(s, Replay(key, record))
    case StillProcessing => Outcome(s, Processing(key))
  }

  // ---- The response ------------------------------------------------------

  /** What the filter can change on the response: its status, its content
      type, the headers it added (in order) and the body written. */
  datatype ResponseState = ResponseState(status: Option<int>, contentType: Option<string>,
                                         headers: seq<(string, string)>, written: Option<string>)

  /** The text of the fixed 202 body before and after the key. */
  const ProcessingOpen: string :=
    "{\"message\":\"Request is being processed. Please retry after 5 seconds.\",\"idempotencyKey\":\""
  const ProcessingClose: string := "\"}"

  /** The fixed 202 body, with the key substituted in. */
  function ProcessingBody(key: string): string {
    ProcessingOpen + key + ProcessingClose
  }

  function FirstRequestHeaders(key: string): seq<(string, string)> {
    [(IdempotencyKeyHeader, key), (ReplayHeader, "false")]
  }

  /** The replay of a stored record: a record without a status fails
      before touching the response, and one without a body fails after
      setting status and headers but before writing. */
  function ReplayResponse(rs: ResponseState, key: string, record: IdempotencyRecord): (r: ResponseState)
    ensures record.httpStatus.None? ==> r == rs
    ensures record.httpStatus.Some? ==>
      r.status == record.httpStatus && r.contentType == Some(ApplicationJson)
      && r.headers == rs.headers + [(IdempotencyKeyHeader, key), (ReplayHeader, "true")]
      && r.written == (if record.responseBody.Some? then record.responseBody else rs.written)
  {
    if record.httpStatus.None? then rs
    else
      var headed := ResponseState(record.httpStatus, Some(ApplicationJson),
                                  rs.headers + [(IdempotencyKeyHeader, key), (ReplayHeader, "true")], rs.written);
      if record.responseBody.None? then headed else headed.(written := record.responseBody)
  }

  /** The 202 answer to a retry while the first request runs. */
  function ProcessingResponse(rs: ResponseState, key: string): ResponseState {
    ResponseState(Some(Accepted), Some(ApplicationJson),
                  rs.headers + [(IdempotencyKeyHeader, key), (RetryAfterHeader, "5")], Some(ProcessingBody(key)))
  }

  /** How a decision leaves the response. */
  function Respond(rs: ResponseState, d: Decision): (r: ResponseState)
    ensures d.Forward? || d.Unfinished? || d == NullChain(None) ==> r == rs
    ensures d.Processing? ==>
      r == ResponseState(Some(Accepted), Some(ApplicationJson),
                         rs.headers + [(IdempotencyKeyHeader, d.key), (RetryAfterHeader, "5")],
                         Some(ProcessingBody(d.key)))
    ensures d.Replay? && d.record.httpStatus.None? ==> r == rs
    ensures d.Replay? && d.record.httpStatus.Some? ==>
      r.status == d.record.httpStatus && r.contentType == Some(ApplicationJson)
      && r.headers == rs.headers + [(IdempotencyKeyHeader, d.key), (ReplayHeader, "true")]
      && r.written == (if d.record.responseBody.Some? then d.record.responseBody else rs.written)
    ensures d.Execute? ==> r == rs.(headers := rs.headers + FirstRequestHeaders(d.key))
    ensures d.NullChain? && d.acquiredKey.Some? ==>
      r == rs.(headers := rs.headers + FirstRequestHeaders(d.acquiredKey.value))
  {
    match d
    case Forward => rs
    case Unfinished => rs
    case Execute(key, _, _) => rs.(headers := rs.headers + FirstRequestHeaders(key))
    case NullChain(None) => rs
    case NullChain(Some(key)) => rs.(headers := rs.headers + FirstRequestHeaders(key))
    case Replay(key, record) => ReplayResponse(rs, key, record)
    case Processing(key) => ProcessingResponse(rs, key)
  }

  /** The body the backend wrote, as one joined buffer. */
  function Concat(chunks: seq<string>): (r: string)
    ensures |chunks| == 0 ==> r == ""
    ensures |chunks| > 0 ==> r == Concat(chunks[..|chunks| - 1]) + chunks[|chunks| - 1]
  {
    if |chunks| == 0 then "" else Concat(chunks[..|chunks| - 1]) + chunks[|chunks| - 1]
  }

  /** The status stored for a captured response: the response's own, or 200
      when none was set. */
  function CapturedStatus(status: Option<int>): int {
    if status.Some? then status.value else Ok
  }

  // ---- Properties ---------------------------------------------------------

  /** Every other method, and a request without a key, goes to the chain
      with the store and the response untouched. */
  lemma PassThroughUntouched(cfg: IdempotencyConfig, req: Request, s: Store, passes: seq<Pass>, rs: ResponseState)
    requires !RequiresIdempotency(req) || ExtractIdempotencyKey(req).None?
    ensures FilterRun(cfg, req, true, s, passes) == Outcome(s, Forward)
    ensures Respond(rs, Forward) == rs
  {
  }

  /** A first request on a free key, with the store answering, takes the
      key and runs the backend: the store then holds the in-progress
      record, and the response carries the key and a non-replay marker. */
  lemma FreeKeyExecutes(cfg: IdempotencyConfig, req: Request, key: string, s: Store, passes: seq<Pass>,
                        rs: ResponseState, later: Instant)
    requires RequiresIdempotency(req) && ExtractIdempotencyKey(req) == Some(key)
    requires |passes| > 0 && !passes[0].acquireFails && !Live(s, StoreKey(key), passes[0].acquireAt)
    requires passes[0].acquireAt <= later < passes[0].acquireAt + Resolve(cfg, req.httpMethod, req.path).inProgress
    ensures var o := FilterRun(cfg, req, true, s, passes);
      && o.decision == Execute(key, passes[0].acquireAt, Resolve(cfg, req.httpMethod, req.path).completed)
      && FetchResult(o.store, key, later, false) == Some(InProgressRecord(passes[0].acquireAt))
      && Respond(rs, o.decision).headers == rs.headers + [(IdempotencyKeyHeader, key), (ReplayHeader, "false")]
  {
    var ttl := Resolve(cfg, req.httpMethod, req.path);
    AcquireThenFetch(s, key, ttl.inProgress, passes[0].acquireAt, false, later);
  }

  /** A store that fails every call sends each pass into a restart: the
      backend is never reached and nothing is written. */
  lemma {:induction false} FailingStoreNeverReachesBackend(cfg: IdempotencyConfig, req: Request, chained: bool,
                                                           s: Store, passes: seq<Pass>)
    requires RequiresIdempotency(req) && ExtractIdempotencyKey(req).Some?
    requires forall i :: 0 <= i < |passes| ==> passes[i].acquireFails && passes[i].fetchFails
    ensures FilterRun(cfg, req, chained, s, passes) == Outcome(s, Unfinished)
    decreases |passes|
  {
    if |passes| > 0 {
      FailingStoreNeverReachesBackend(cfg, req, false, s, passes[1..]);
    }
  }

  /** After a restart the chain is null: no later pass executes. */
  lemma RestartNeverExecutes(cfg: IdempotencyConfig, req: Request, s: Store, passes: seq<Pass>)
    ensures !FilterRun(cfg, req, false, s, passes).decision.Execute?
  {
  }

  /** A restart whose next acquire succeeds invokes the null chain, after
      adding the first-request headers. */
  lemma RestartThenAcquireHitsNullChain(cfg: IdempotencyConfig, req: Request, s: Store, p0: Pass, p1: Pass, rs: ResponseState)
    requires RequiresIdempotency(req) && ExtractIdempotencyKey(req).Some?
    requires p0.acquireFails && p0.fetchFails && !p1.acquireFails
    requires !Live(s, StoreKey(ExtractIdempotencyKey(req).value), p1.acquireAt)
    ensures var key := ExtractIdempotencyKey(req).value;
      && FilterRun(cfg, req, true, s, [p0, p1]).decision == NullChain(Some(key))
      && Respond(rs, NullChain(Some(key))).headers == rs.headers + FirstRequestHeaders(key)
  {
    var key := ExtractIdempotencyKey(req).value;
    var ttl := Resolve(cfg, req.httpMethod, req.path);
    assert AfterTryAcquire(s, key, ttl.inProgress, p0.acquireAt, true) == Acquisition(s, None);
    assert [p0, p1][1..] == [p1];
    assert RetryRun(cfg, req, key, ttl, s, [p0, p1]) == FilterRun(cfg, req, false, s, [p1]);
  }

  /** While a live record holds the key, no pass reaches the backend, the
      null chain is never reached through an acquire, and the store is
      unchanged. */
  lemma {:induction false} HeldKeyNeverExecutes(cfg: IdempotencyConfig, req: Request, chained: bool, s: Store, passes: seq<Pass>)
    requires RequiresIdempotency(req) && ExtractIdempotencyKey(req).Some?
    requires StoreKey(ExtractIdempotencyKey(req).value) in s
    requires forall i :: 0 <= i < |passes| ==> passes[i].acquireAt < s[StoreKey(ExtractIdempotencyKey(req).value)].expiresAt
    ensures var r := FilterRun(cfg, req, chained, s, passes);
      r.store == s && !r.decision.Execute? && !(r.decision.NullChain? && r.decision.acquiredKey.Some?)
    decreases |passes|
  {
    if |passes| > 0 {
      HeldKeyNeverExecutes(cfg, req, false, s, passes[1..]);
    }
  }

  /** After complete, a retry of the same key within the completed TTL gets
      the stored status and body back, marked as a replay, and the store is
      left as it is. */
  lemma ReplayAfterCompletion(cfg: IdempotencyConfig, req: Request, chained: bool, s: Store,
                              httpStatus: int, responseBody: string, startedAt: Instant, completedTtl: Duration,
                              now: Instant, passes: seq<Pass>, rs: ResponseState)
    requires RequiresIdempotency(req) && ExtractIdempotencyKey(req).Some?
    requires |passes| > 0 && passes[0].acquireAt < now + completedTtl && passes[0].fetchAt < now + completedTtl
    requires !passes[0].fetchFails
    ensures var key := ExtractIdempotencyKey(req).value;
      var s' := AfterComplete(s, key, httpStatus, responseBody, startedAt, completedTtl, now, false);
      var r := FilterRun(cfg, req, chained, s', passes);
      && r == Outcome(s', Replay(key, CompletedRecord(httpStatus, responseBody, startedAt)))
      && Respond(rs, r.decision).status == Some(httpStatus)
      && Respond(rs, r.decision).written == Some(responseBody)
  {
    var key := ExtractIdempotencyKey(req).value;
    CompleteThenFetch(s, key, httpStatus, responseBody, startedAt, completedTtl, now, passes[0].fetchAt);
  }

  /** While the first request runs, a retry with a whole-second in-progress
      TTL inside that TTL is told 202 with the fixed body. */
  lemma RetryDuringExecutionIsProcessing(cfg: IdempotencyConfig, req: Request, chained: bool, s: Store, t0: Instant,
                                         firstFails: bool, passes: seq<Pass>, rs: ResponseState)
    requires RequiresIdempotency(req) && ExtractIdempotencyKey(req).Some?
    requires var ttl := Resolve(cfg, req.httpMethod, req.path).inProgress;
      && ttl % NanosPerSecond == 0
      && AfterTryAcquire(s, ExtractIdempotencyKey(req).value, ttl, t0, firstFails).acquired.Some?
    requires |passes| > 0 && !passes[0].fetchFails
    requires passes[0].acquireAt < t0 + Resolve(cfg, req.httpMethod, req.path).inProgress
    requires passes[0].fetchAt < t0 + Resolve(cfg, req.httpMethod, req.path).inProgress
    ensures var key := ExtractIdempotencyKey(req).value;
      var s1 := AfterTryAcquire(s, key, Resolve(cfg, req.httpMethod, req.path).inProgress, t0, firstFails).store;
      && FilterRun(cfg, req, chained, s1, passes).decision == Processing(key)
      && Respond(rs, Processing(key)).written == Some(ProcessingBody(key))
  {
    var key := ExtractIdempotencyKey(req).value;
    var ttl := Resolve(cfg, req.httpMethod, req.path).inProgress;
    var a := AfterTryAcquire(s, key, ttl, t0, firstFails);
    AcquireThenFetch(s, key, ttl, t0, firstFails, passes[0].fetchAt);
    assert OfSeconds(GetSeconds(ttl)) == ttl;
  }

  /** The 202 body names the key unambiguously. */
  lemma ProcessingBodyInjective(k1: string, k2: string)
    requires ProcessingBody(k1) == ProcessingBody(k2)
    ensures k1 == k2
  {
    assert |k1| == |k2|;
    assert k1 == ProcessingBody(k1)[|ProcessingOpen|..|ProcessingOpen| + |k1|];
    assert k2 == ProcessingBody(k2)[|ProcessingOpen|..|ProcessingOpen| + |k2|];
  }

  // ---- The imperative part ------------------------------------------------

  /** The exchange's response. */
  class Response {
    var status: Option<int>
    var contentType: Option<string>
    var headers: seq<(string, string)>
    var written: Option<string>

    constructor ()
      ensures State() == ResponseState(None, None, [], None)
    {
      status, contentType, headers, written := None, None, [], None;
    }

    function State(): ResponseState
      reads this
    {
      ResponseState(status, contentType, headers, written)
    }

    method SetStatusCode(code: int)
      modifies this
      ensures State() == old(State()).(status := Some(code))
    {
      status := Some(code);
    }

    method SetContentType(mediaType: string)
      modifies this
      ensures State() == old(State()).(contentType := Some(mediaType))
    {
      contentType := Some(mediaType);
    }

    method AddHeader(name: string, value: string)
      modifies this
      ensures State() == old(State()).(headers := old(headers) + [(name, value)])
    {
      headers := headers + [(name, value)];
    }

    method WriteWith(body: string)
      modifies this
      ensures State() == old(State()).(written := Some(body))
    {
      written := Some(body);
    }
  }

  /** Wraps the response of a first request: captures the body, stores it
      as the COMPLETED record, and passes it on. */
  class ResponseCaptureDecorator {
    const delegate: Response
    const idempotencyKey: string
    const startedAt: Instant
    const service: IdempotencyService
    const completedTtl: Duration

    constructor (delegate: Response, idempotencyKey: string, startedAt: Instant,
                 service: IdempotencyService, completedTtl: Duration)
      ensures this.delegate == delegate && this.idempotencyKey == idempotencyKey && this.startedAt == startedAt
      ensures this.service == service && this.completedTtl == completedTtl
    {
      this.delegate := delegate;
      this.idempotencyKey := idempotencyKey;
      this.startedAt := startedAt;
      this.service := service;
      this.completedTtl := completedTtl;
    }

    /** The backend writes `chunks` at time `now`; `fails` is the fate of
        the detached complete. An empty body is never joined, so nothing is
        stored or written. */
    method WriteWith(chunks: seq<string>, now: Instant, fails: bool)
      modifies delegate, service
      ensures chunks == [] ==> delegate.State() == old(delegate.State()) && service.store == old(service.store)
      ensures chunks != [] ==> service.store == AfterComplete(old(service.store), idempotencyKey,
        CapturedStatus(old(delegate.status)), Concat(chunks), startedAt, completedTtl, now, fails)
      ensures chunks != [] ==> delegate.State() == old(delegate.State()).(written := Some(Concat(chunks)))
    {
      if chunks == [] {
        return;
      }
      var joined := Concat(chunks);
      var bytes := new char[|joined|];
      var i := 0;
      while i < |joined|
        invariant 0 <= i <= |joined|
        invariant bytes[..i] == joined[..i]
        modifies bytes
      {
        bytes[i] := joined[i];
        i := i + 1;
      }
      var responseBody := bytes[..];
      assert responseBody == joined[..|joined|] == joined;
      var httpStatus := CapturedStatus(delegate.status);
      service.Complete(idempotencyKey, httpStatus, responseBody, startedAt, completedTtl, now, fails);
      delegate.WriteWith(responseBody);
    }
  }

  class IdempotencyGlobalFilter {
    const service: IdempotencyService
    const config: IdempotencyConfig

    constructor (service: IdempotencyService, config: IdempotencyConfig)
      ensures this.service == service && this.config == config
    {
      this.service := service;
      this.config := config;
    }

    /** filter(exchange, chain). When the request executes, the capture
        decorator put in front of the response is returned. */
    method Filter(req: Request, resp: Response, chained: bool, passes: seq<Pass>)
      returns (d: Decision, capture: ResponseCaptureDecorator?)
      modifies resp, service
      decreases |passes|, 1
      ensures Outcome(service.store, d) == FilterRun(config, req, chained, old(service.store), passes)
      ensures resp.State() == Respond(old(resp.State()), d)
      ensures d.Execute? <==> capture != null
      ensures capture != null ==> (fresh(capture) && capture.delegate == resp && capture.service == service
        && capture.idempotencyKey == d.key && capture.startedAt == d.startedAt && capture.completedTtl == d.completedTtl)
    {
      capture := null;
      if !RequiresIdempotency(req) {
        d := if chained then Forward else NullChain(None);
        return;
      }
      var idempotencyKey := ExtractIdempotencyKey(req);
      if idempotencyKey.None? {
        d := if chained then Forward else NullChain(None);
        return;
      }
      var key := idempotencyKey.value;
      var ttlConfig := Resolve(config, req.httpMethod, req.path);
      if |passes| == 0 {
        d := Unfinished;
        return;
      }
      var maybeRecord := service.TryAcquire(key, ttlConfig.inProgress, passes[0].acquireAt, passes[0].acquireFails);
      if maybeRecord.Some? {
        d, capture := HandleFirstRequest(resp, chained, key, maybeRecord.value, ttlConfig);
      } else {
        d, capture := HandleRetryRequest(req, resp, key, ttlConfig, passes);
      }
    }

    /** handleFirstRequest: echo the key, mark it as no replay, then run the
        chain behind a capture decorator (or invoke the null chain). */
    method HandleFirstRequest(resp: Response, chained: bool, key: string, inProgressRecord: IdempotencyRecord,
                              ttlConfig: TtlConfig)
      returns (d: Decision, capture: ResponseCaptureDecorator?)
      modifies resp
      ensures d == if chained then Execute(key, inProgressRecord.startedAt, ttlConfig.completed) else NullChain(Some(key))
      ensures resp.State() == Respond(old(resp.State()), d)
      ensures chained <==> capture != null
      ensures capture != null ==> (fresh(capture) && capture.delegate == resp && capture.service == service
        && capture.idempotencyKey == key && capture.startedAt == inProgressRecord.startedAt
        && capture.completedTtl == ttlConfig.completed)
    {
      resp.AddHeader(IdempotencyKeyHeader, key);
      resp.AddHeader(ReplayHeader, "false");
      var decorated := new ResponseCaptureDecorator(resp, key, inProgressRecord.startedAt, service, ttlConfig.completed);
      if chained {
        d, capture := Execute(key, inProgressRecord.startedAt, ttlConfig.completed), decorated;
      } else {
        d, capture := NullChain(Some(key)), null;
      }
    }

    /** handleRetryRequest: fetch, then replay, answer 202 or restart. */
    method HandleRetryRequest(req: Request, resp: Response, key: string, ttlConfig: TtlConfig, passes: seq<Pass>)
      returns (d: Decision, capture: ResponseCaptureDecorator?)
      requires |passes| > 0 && ExtractIdempotencyKey(req) == Some(key)
      modifies resp, service
      decreases |passes|, 0
      ensures Outcome(service.store, d) == RetryRun(config, req, key, ttlConfig, old(service.store), passes)
      ensures resp.State() == Respond(old(resp.State()), d)
      ensures capture == null
    {
      var maybeRecord := service.Fetch(key, passes[0].fetchAt, passes[0].fetchFails);
      match ChooseRetry(maybeRecord, ttlConfig.inProgress, passes[0].fetchAt)
      case Restart =>
        d, capture := Filter(req, resp, false, passes[1..]);
      case ReturnCached(record) =>
        ReturnCachedResponse(resp, record, key);
        d, capture := Replay(key, record), null;
      case StillProcessing =>
        ReturnProcessingResponse(resp, key);
        d, capture := Processing(key), null;
    }

    /** returnCachedResponse: the stored status and body, marked as a
        replay. */
    method ReturnCachedResponse(resp: Response, record: IdempotencyRecord, key: string)
      modifies resp
      ensures resp.State() == Respond(old(resp.State()), Replay(key, record))
    {
      if record.httpStatus.None? {
        return;
      }
      resp.SetStatusCode(record.httpStatus.value);
      resp.SetContentType(ApplicationJson);
      resp.AddHeader(IdempotencyKeyHeader, key);
      resp.AddHeader(ReplayHeader, "true");
      if record.responseBody.None? {
        return;
      }
      resp.WriteWith(record.responseBody.value);
    }

    /** returnProcessingResponse: 202 with Retry-After and the fixed body. */
    method ReturnProcessingResponse(resp: Response, key: string)
      modifies resp
      ensures resp.State() == Respond(old(resp.State()), Processing(key))
    {
      resp.SetStatusCode(Accepted);
      resp.SetContentType(ApplicationJson);
      resp.AddHeader(IdempotencyKeyHeader, key);
      resp.AddHeader(RetryAfterHeader, "5");
      resp.WriteWith(ProcessingBody(key));
    }
  }
}
