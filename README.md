# switchboard-gateway: the idempotency coordinator and JWT authentication

This project is a Dafny model of the parts of the switchboard-gateway API
gateway that make decisions. The rest of the gateway is Spring and Reactor
wiring. The model proves properties of those decisions.

- **Idempotency records** (`IdempotencyRecords`). A record is an
  immutable value, IN_PROGRESS or COMPLETED. An IN_PROGRESS record expires
  strictly after its start time plus a TTL given in whole seconds.
- **TTL resolution** (`TtlResolution`). The TTL pair for a request comes
  from the first of these that applies:
  - an exact entry for `method + ":" + path`;
  - the first `/**` or `/*` pattern that matches it;
  - the defaults, 30 seconds and 24 hours.
- **The idempotency store** (`IdempotencyStore`). The shared Redis store
  is a map from key to value and expiry instant. `tryAcquire` is one
  atomic set-if-absent, `fetch` only reads, and `complete` overwrites
  and swallows failures. Redis TTL eviction is a separate operation,
  `Evict`, and the model proves that no later fetch or acquire answer
  can observe it.
  The class `IdempotencyService` changes the map in place. Each method is
  proved equal to a function of the old store.
- **The per-request decision** (`IdempotencyFilter`). A request takes
  exactly one of these routes:
  - it passes through;
  - it executes behind a decorator that captures the response body;
  - it gets the stored response replayed;
  - it gets a 202 "in progress" answer;
  - it restarts.

  A restart re-enters `filter` with a null chain, as the code does. A
  later pass that acquires the key therefore invokes that null chain
  instead of the backend. The model calls this outcome `NullChain`. The
  functions `FilterRun` and `RetryRun` give the decision and the new
  store. `Respond` gives the effect on the response: status, content
  type, added headers and written body. The filter's methods mutate a
  `Response` object and the store, and are proved against these
  functions.
- **The key registry** (`KeyRegistry`). `getKey` returns the key cached
  for a kid, and otherwise any cached key. A refresh reads a JWK Set
  (section 5 of RFC 7517) and builds RSA keys from `n` and `e`
  (section 6.3.1 of RFC 7518). It either replaces the whole cache with the
  keys it built or leaves the cache untouched.
- **Token parsing** (`JwtUtil`). The `kid` header parameter (section
  4.1.4 of RFC 7515) is found by scanning the text of the first token
  segment, with Java's `split`, `trim` and `indexOf` modelled exactly.
  A token fails with "keys not loaded" exactly when the registry is empty.
- **The authentication converter** (`AuthenticationConverter`). Public
  paths are skipped, and the `Bearer ` scheme of section 2.1 of RFC 6750
  is matched exactly. The role claim becomes one `ROLE_` authority, and
  every failure means no authentication.

Time is an explicit `now`: an `Instant` or `Duration` is an integer
count of nanoseconds. Each store call takes a flag that says whether it
fails. Three things are parameters because their code is not part of this
model:
- base64url decoding;
- RSA key construction;
- signature verification.

## Model

| member | source | states |
|---|---|---|
| IdempotencyRecords.InProgressRecord | src/main/java/com/SwitchBoard/Gateway/Model/IdempotencyRecord.java:31-33 | status IN_PROGRESS, no HTTP status and no body, started at `now`; well formed |
| IdempotencyRecords.CompletedRecord | src/main/java/com/SwitchBoard/Gateway/Model/IdempotencyRecord.java:36-38 | status COMPLETED carrying exactly the given status, body and start instant; well formed |
| IdempotencyRecords.IdempotencyRecord.IsExpired | src/main/java/com/SwitchBoard/Gateway/Model/IdempotencyRecord.java:53-58 | a record is expired iff it is IN_PROGRESS and more than the TTL in whole seconds has passed since it started |
| IdempotencyRecords.CompletedNeverExpires | src/main/java/com/SwitchBoard/Gateway/Model/IdempotencyRecord.java:53-56 | a COMPLETED record is never expired, for any TTL and any time |
| IdempotencyRecords.ExpiryBoundary | src/main/java/com/SwitchBoard/Gateway/Model/IdempotencyRecord.java:57 | an IN_PROGRESS record is not expired at exactly start + TTL and is expired one nanosecond later |
| IdempotencyRecords.ExpiryMonotone | src/main/java/com/SwitchBoard/Gateway/Model/IdempotencyRecord.java:57 | once expired, a record is expired at every later time |
| IdempotencyRecords.FreshRecordNotExpired | src/main/java/com/SwitchBoard/Gateway/Model/IdempotencyRecord.java:57 | a record just made by inProgress() is not expired at its creation instant for a non-negative TTL |
| TtlResolution.InitialConfigResolvesDefaults | src/main/java/com/SwitchBoard/Gateway/Config/IdempotencyConfig.java:19-22 | with no endpoints configured, every request resolves to 30 s IN_PROGRESS and 24 h COMPLETED |
| TtlResolution.EndpointKeyInjective | src/main/java/com/SwitchBoard/Gateway/Config/IdempotencyConfig.java:29 | distinct (method, path) pairs give distinct lookup keys when methods hold no colon |
| TtlResolution.Matches | src/main/java/com/SwitchBoard/Gateway/Config/IdempotencyConfig.java:48-56 | a pattern without a `/**` or `/*` suffix matches exactly the key equal to it |
| TtlResolution.ExactIndex | src/main/java/com/SwitchBoard/Gateway/Config/IdempotencyConfig.java:32-33 | none iff no entry has the key; otherwise the position of the first entry whose pattern is the key |
| TtlResolution.FirstMatchIndex | src/main/java/com/SwitchBoard/Gateway/Config/IdempotencyConfig.java:37-42 | none iff no pattern matches; otherwise the position of the first matching entry in iteration order |
| TtlResolution.Resolve | src/main/java/com/SwitchBoard/Gateway/Config/IdempotencyConfig.java:28-44 | the TTLs resolved for a request are the defaults or those of an entry whose pattern equals or matches the request's key; anything but the defaults needs a configured entry |
| TtlResolution.MatchesMultiSegment | src/main/java/com/SwitchBoard/Gateway/Config/IdempotencyConfig.java:48-51 | a `/**` pattern matches exactly the keys starting with the pattern minus its last 3 characters |
| TtlResolution.MatchesSingleSegment | src/main/java/com/SwitchBoard/Gateway/Config/IdempotencyConfig.java:52-55 | a `/*` pattern matches iff the key starts with the pattern minus 2 characters and no `/` follows |
| TtlResolution.SingleSegmentMissesChildren | src/main/java/com/SwitchBoard/Gateway/Config/IdempotencyConfig.java:52-55 | `prefix/*` never matches `prefix/segment`: a single-segment pattern misses every child |
| TtlResolution.MatchesLiteral | src/main/java/com/SwitchBoard/Gateway/Config/IdempotencyConfig.java:56 | any other pattern matches only the identical key |
| TtlResolution.ResolveExact | src/main/java/com/SwitchBoard/Gateway/Config/IdempotencyConfig.java:32-34 | an entry for the exact key is returned even when wildcard entries also match |
| TtlResolution.ResolveFirstMatch | src/main/java/com/SwitchBoard/Gateway/Config/IdempotencyConfig.java:37-42 | without an exact entry, the first matching entry decides and the defaults are not used |
| TtlResolution.ResolveDefaults | src/main/java/com/SwitchBoard/Gateway/Config/IdempotencyConfig.java:43 | when nothing equals or matches the key, the defaults are returned |
| TtlResolution.ResolveExampleExact | src/main/java/com/SwitchBoard/Gateway/Config/IdempotencyConfig.java:28-44 | with `POST:/orders/**` and `POST:/orders/special`, POST /orders/special gets the exact entry |
| TtlResolution.ResolveExampleWildcard | src/main/java/com/SwitchBoard/Gateway/Config/IdempotencyConfig.java:28-44 | with the same entries, POST /orders/123 gets the `/**` entry |
| TtlResolution.ResolveExampleDefaults | src/main/java/com/SwitchBoard/Gateway/Config/IdempotencyConfig.java:28-44 | with the same entries, POST /other gets the defaults |
| IdempotencyStore.StoreKeyInjective | src/main/java/com/SwitchBoard/Gateway/Service/IdempotencyService.java:21 | distinct idempotency keys never share a store key `idempotency:` + key |
| IdempotencyStore.IsExpired | src/main/java/com/SwitchBoard/Gateway/Service/IdempotencyService.java:87-89 | with a whole-second TTL, expired iff IN_PROGRESS and start + TTL lies strictly before now; any IN_PROGRESS record past start + TTL is expired |
| IdempotencyStore.AfterTryAcquire | src/main/java/com/SwitchBoard/Gateway/Service/IdempotencyService.java:32-52 | acquires iff the call does not fail and no live value exists; the answer is the IN_PROGRESS record stamped now, and the store then maps the key to that record expiring at now + the in-progress TTL; on no acquire the store is unchanged; other keys are never touched |
| IdempotencyStore.FetchResult | src/main/java/com/SwitchBoard/Gateway/Service/IdempotencyService.java:54-66 | empty iff the call fails, the key is not live or its value does not decode; otherwise the stored record |
| IdempotencyStore.AfterComplete | src/main/java/com/SwitchBoard/Gateway/Service/IdempotencyService.java:68-84 | on success the key holds COMPLETED(status, body, startedAt) until now + TTL whatever it held before; on failure nothing changes; other keys untouched |
| IdempotencyStore.AfterEvict | src/main/java/com/SwitchBoard/Gateway/Service/IdempotencyService.java:37-38 | exactly the live entries remain, unchanged |
| IdempotencyStore.AcquireThenFetch | src/main/java/com/SwitchBoard/Gateway/Service/IdempotencyService.java:32-42 | after a successful acquire, every fetch within the TTL returns that IN_PROGRESS record |
| IdempotencyStore.AcquireExclusive | src/main/java/com/SwitchBoard/Gateway/Service/IdempotencyService.java:38-45 | while an acquired record is live, a second acquire answers empty and leaves the store as it is |
| IdempotencyStore.CompleteThenFetch | src/main/java/com/SwitchBoard/Gateway/Service/IdempotencyService.java:68-75 | after complete, a fetch within the completed TTL returns exactly the COMPLETED record |
| IdempotencyStore.AcquireFailureLooksHeld | src/main/java/com/SwitchBoard/Gateway/Service/IdempotencyService.java:48-51 | a failed acquire gives the same answer and store as an acquire of a held key |
| IdempotencyStore.EvictUnobservable | src/main/java/com/SwitchBoard/Gateway/Service/IdempotencyService.java:54-61 | eviction changes no later fetch answer and no later acquire answer |
| IdempotencyStore.ExpiryIgnoresSubSeconds | src/main/java/com/SwitchBoard/Gateway/Service/IdempotencyService.java:87-89 | isExpired depends only on the whole seconds of the TTL |
| IdempotencyStore.WholeSecondTtlNotExpiredWhileLive | src/main/java/com/SwitchBoard/Gateway/Service/IdempotencyService.java:87-89 | with a whole-second TTL, an acquired record is never expired while the store still holds it |
| IdempotencyStore.FractionalTtlExpiresWhileLive | src/main/java/com/SwitchBoard/Gateway/Service/IdempotencyService.java:87-89 | with a 1.5 s TTL, a record acquired at 0 is expired at 1.2 s while the store still holds it |
| IdempotencyStore.IdempotencyService.TryAcquire | src/main/java/com/SwitchBoard/Gateway/Service/IdempotencyService.java:32-52 | the new store and the answer are those of AfterTryAcquire on the old store |
| IdempotencyStore.IdempotencyService.Fetch | src/main/java/com/SwitchBoard/Gateway/Service/IdempotencyService.java:54-66 | the answer is FetchResult of the current store; the store is not modified |
| IdempotencyStore.IdempotencyService.Complete | src/main/java/com/SwitchBoard/Gateway/Service/IdempotencyService.java:68-84 | the new store is AfterComplete of the old store |
| IdempotencyStore.IdempotencyService.Evict | src/main/java/com/SwitchBoard/Gateway/Service/IdempotencyService.java:37-38 | the new store is AfterEvict of the old store |
| IdempotencyFilter.ExtractIdempotencyKey | src/main/java/com/SwitchBoard/Gateway/Filter/IdempotencyGlobalFilter.java:192-198 | none iff the header is missing or has no values; otherwise its first value |
| IdempotencyFilter.RequiresIdempotency | src/main/java/com/SwitchBoard/Gateway/Filter/IdempotencyGlobalFilter.java:188-190 | exactly POST, PUT and PATCH need a key |
| IdempotencyFilter.ChooseRetry | src/main/java/com/SwitchBoard/Gateway/Filter/IdempotencyGlobalFilter.java:120-145 | restart iff the record is missing or an expired IN_PROGRESS one; replay iff it is COMPLETED, with that record |
| IdempotencyFilter.FilterRun | src/main/java/com/SwitchBoard/Gateway/Filter/IdempotencyGlobalFilter.java:54-86 | pass-through iff the chain is real and the method is not POST/PUT/PATCH or no key is given; execution only on the first pass, with a real chain, the request's key, the acquire instant as startedAt and the resolved completed TTL; and execution whenever a keyed POST/PUT/PATCH on a real chain finds its key free and the store answering; replays carry a COMPLETED record |
| IdempotencyFilter.RetryRun | src/main/java/com/SwitchBoard/Gateway/Filter/IdempotencyGlobalFilter.java:118-146 | a retry never passes through and never executes; an empty fetch or an expired IN_PROGRESS record restarts the filter on a null chain with the next pass; a live IN_PROGRESS record gives a 202 for the key; a COMPLETED record is replayed as fetched; the store is unchanged unless the restart changes it |
| IdempotencyFilter.Respond | src/main/java/com/SwitchBoard/Gateway/Filter/IdempotencyGlobalFilter.java:93-186 | pass-through leaves the response as it is; a first request (executed or on a null chain) only appends `Idempotency-Key` and `X-Idempotent-Replay: false`; a replay of a record without a status changes nothing, otherwise it sets that status, `application/json`, the key and `X-Idempotent-Replay: true`, and writes the stored body when there is one; a 202 sets status, `application/json`, the key and `Retry-After: 5` and writes the fixed body |
| IdempotencyFilter.PassThroughUntouched | src/main/java/com/SwitchBoard/Gateway/Filter/IdempotencyGlobalFilter.java:58-65 | other methods and requests without a key reach the chain with store and response untouched |
| IdempotencyFilter.FreeKeyExecutes | src/main/java/com/SwitchBoard/Gateway/Filter/IdempotencyGlobalFilter.java:81-112 | a keyed POST/PUT/PATCH whose key is free runs the backend: the store then holds the IN_PROGRESS record stamped at the acquire instant (read back within its TTL), and the response gains `Idempotency-Key` and `X-Idempotent-Replay: false` |
| IdempotencyFilter.FailingStoreNeverReachesBackend | src/main/java/com/SwitchBoard/Gateway/Filter/IdempotencyGlobalFilter.java:81-127 | when every store call fails, every pass restarts: the backend is never reached and the store is unchanged |
| IdempotencyFilter.RestartNeverExecutes | src/main/java/com/SwitchBoard/Gateway/Filter/IdempotencyGlobalFilter.java:122-139 | after a restart the chain is null, so no later pass executes the request |
| IdempotencyFilter.RestartThenAcquireHitsNullChain | src/main/java/com/SwitchBoard/Gateway/Filter/IdempotencyGlobalFilter.java:118-127 | a restart followed by a successful acquire adds the first-request headers and invokes the null chain |
| IdempotencyFilter.HeldKeyNeverExecutes | src/main/java/com/SwitchBoard/Gateway/Filter/IdempotencyGlobalFilter.java:81-85 | while a live record holds the key, no pass executes or acquires, and the store is unchanged |
| IdempotencyFilter.ReplayAfterCompletion | src/main/java/com/SwitchBoard/Gateway/Filter/IdempotencyGlobalFilter.java:131-164 | after complete, a retry within the completed TTL replays the stored status and body and writes nothing to the store |
| IdempotencyFilter.RetryDuringExecutionIsProcessing | src/main/java/com/SwitchBoard/Gateway/Filter/IdempotencyGlobalFilter.java:134-142 | while the first request runs, a retry within a whole-second TTL gets 202 with the fixed body naming the key |
| IdempotencyFilter.ProcessingBodyInjective | src/main/java/com/SwitchBoard/Gateway/Filter/IdempotencyGlobalFilter.java:179-182 | the 202 body determines the key |
| IdempotencyFilter.ResponseCaptureDecorator.WriteWith | src/main/java/com/SwitchBoard/Gateway/Filter/IdempotencyGlobalFilter.java:228-254 | a non-empty body is stored by complete with the response status (200 if unset) and the decorator's startedAt, and the same joined body is written to the client; an empty body changes nothing |
| IdempotencyFilter.IdempotencyGlobalFilter.Filter | src/main/java/com/SwitchBoard/Gateway/Filter/IdempotencyGlobalFilter.java:54-86 | store and decision follow FilterRun, the response follows Respond, and a capture decorator on this response and service exists exactly when the request executes |
| IdempotencyFilter.IdempotencyGlobalFilter.HandleFirstRequest | src/main/java/com/SwitchBoard/Gateway/Filter/IdempotencyGlobalFilter.java:89-115 | adds the key and `X-Idempotent-Replay: false` headers, then executes with a real chain or invokes the null chain |
| IdempotencyFilter.IdempotencyGlobalFilter.HandleRetryRequest | src/main/java/com/SwitchBoard/Gateway/Filter/IdempotencyGlobalFilter.java:118-146 | store and decision follow RetryRun, the response follows Respond |
| IdempotencyFilter.IdempotencyGlobalFilter.ReturnCachedResponse | src/main/java/com/SwitchBoard/Gateway/Filter/IdempotencyGlobalFilter.java:148-165 | the response becomes Respond of a replay of the record |
| IdempotencyFilter.IdempotencyGlobalFilter.ReturnProcessingResponse | src/main/java/com/SwitchBoard/Gateway/Filter/IdempotencyGlobalFilter.java:168-186 | the response becomes 202, JSON, key and `Retry-After: 5` headers, and the fixed body |
| KeyRegistry.Collect | src/main/java/com/SwitchBoard/Gateway/Service/JwksService.java:95-109 | when no build fails, the keys of the map built are exactly the kids of the entries with kid, n and e |
| KeyRegistry.RefreshedCache | src/main/java/com/SwitchBoard/Gateway/Service/JwksService.java:74-123 | the cache is replaced wholesale, keys included, exactly when the document is a key set whose build succeeds with at least one key; an unavailable or malformed document or an aborted build leaves it as it was |
| KeyRegistry.AbortPersists | src/main/java/com/SwitchBoard/Gateway/Service/JwksService.java:119-122 | a build failure on a prefix of the entries aborts the whole refresh |
| KeyRegistry.BuildFailureAborts | src/main/java/com/SwitchBoard/Gateway/Service/JwksService.java:107-122 | one usable entry whose key cannot be built leaves the cache unchanged, whatever the other entries hold |
| KeyRegistry.AbortHasCause | src/main/java/com/SwitchBoard/Gateway/Service/JwksService.java:119-122 | a refresh aborts only because some usable entry's key could not be built |
| KeyRegistry.LastDuplicateWins | src/main/java/com/SwitchBoard/Gateway/Service/JwksService.java:108 | when a kid appears more than once, the last usable entry for it supplies the key |
| KeyRegistry.RefreshKeepsExactlyNewKids | src/main/java/com/SwitchBoard/Gateway/Service/JwksService.java:111-113 | a refresh that builds a key makes the cache the newly built map: exactly the new document's kids, each with its newly built key, so dropped kids go and a key rotated under the same kid is replaced |
| KeyRegistry.NoUsableEntryKeepsCache | src/main/java/com/SwitchBoard/Gateway/Service/JwksService.java:115-117 | a document without a usable entry leaves the cache intact |
| KeyRegistry.JwksService.GetKey | src/main/java/com/SwitchBoard/Gateway/Service/JwksService.java:62-69 | the key cached under the kid when present; otherwise some cached key; none iff the cache is empty |
| KeyRegistry.JwksService.FetchAndCacheKeys | src/main/java/com/SwitchBoard/Gateway/Service/JwksService.java:74-123 | the new cache is RefreshedCache of the old one |
| JwtUtil.QuotedKid | src/main/java/com/SwitchBoard/Gateway/Util/JwtUtil.java:32-35 | a kid read after the marker holds no quote |
| JwtUtil.HeaderKid | src/main/java/com/SwitchBoard/Gateway/Util/JwtUtil.java:29-37 | a kid found in a header holds no quote |
| JwtUtil.ExtractKid | src/main/java/com/SwitchBoard/Gateway/Util/JwtUtil.java:24-27 | when the first dot-separated segment decodes, the kid is exactly the one the header scan finds in it; a kid is found only when that header names `"kid"`, and it holds no quote |
| JwtUtil.ParseClaims | src/main/java/com/SwitchBoard/Gateway/Util/JwtUtil.java:42-52 | keys-not-loaded iff the registry gives no key for the token's kid; given a key, success iff the verifier accepts the token under that key, and the claims are those the verifier gives |
| JwtUtil.KidLocated | src/main/java/com/SwitchBoard/Gateway/Util/JwtUtil.java:29-35 | a kid found sits right after the first `"kid":` and whitespace, between two quotes |
| JwtUtil.KidRoundTrip | src/main/java/com/SwitchBoard/Gateway/Util/JwtUtil.java:29-35 | a header with `"kid":` at the first marker, then whitespace the trim removes (none, or the blanks of a pretty-printed header such as `"kid": "k"`), then `"k"`, and no marker again before the closing quote, yields k |
| JwtUtil.QuotedKidReadsWs | src/main/java/com/SwitchBoard/Gateway/Util/JwtUtil.java:32-35 | a part that opens with trimmable whitespace and then a quoted kid without quotes reads back exactly that kid |
| JwtUtil.LeadingOfWs | src/main/java/com/SwitchBoard/Gateway/Util/JwtUtil.java:32 | the trim in front removes exactly the whitespace before the first other character |
| JwtUtil.NoMarkerNoKid | src/main/java/com/SwitchBoard/Gateway/Util/JwtUtil.java:30-31 | without `"kid":` in the header (say with whitespace before the colon) no kid is found |
| JwtUtil.AllDotsNoKid | src/main/java/com/SwitchBoard/Gateway/Util/JwtUtil.java:24-25 | a token made only of dots splits into nothing, and no kid is found |
| JwtUtil.FirstSegmentDecides | src/main/java/com/SwitchBoard/Gateway/Util/JwtUtil.java:24-26 | the kid depends only on the first dot-separated segment |
| JwtUtil.KeysNotLoadedIffEmptyCache | src/main/java/com/SwitchBoard/Gateway/Util/JwtUtil.java:42-46 | under the registry's lookup, parsing fails with keys-not-loaded iff the cache is empty |
| JwtUtil.KnownKidSelectsItsKey | src/main/java/com/SwitchBoard/Gateway/Util/JwtUtil.java:42-52 | when the token's kid is cached, the verifier is given that kid's key |
| JwtUtil.CachedKeyDecides | src/main/java/com/SwitchBoard/Gateway/Util/JwtUtil.java:42-49 | once the registry holds any key, every token gets a cached key (its kid's own or the fallback), and parsing succeeds iff the verifier accepts the token under that key |
| AuthenticationConverter.UserIdOf | src/main/java/com/SwitchBoard/Gateway/Config/JwtAuthenticationConverter.java:55 | a string claim gives exactly its text; missing or null gives none; any other type is an error |
| AuthenticationConverter.IsPublicPath | src/main/java/com/SwitchBoard/Gateway/Config/JwtAuthenticationConverter.java:30-36 | every `/actuator/` and `/api/v1/auth/` path and `/.well-known/jwks.json` skips authentication; public paths start with `/`; every other `/api/v1/` path needs a token |
| AuthenticationConverter.RoleOf | src/main/java/com/SwitchBoard/Gateway/Config/JwtAuthenticationConverter.java:58-69 | a string gives itself; a non-empty list its first element, and a null first element a null role; missing, null, an empty list or another type gives USER; the cast fails iff the first list element is neither a string nor null |
| AuthenticationConverter.Convert | src/main/java/com/SwitchBoard/Gateway/Config/JwtAuthenticationConverter.java:26-92 | an authentication exists only for a private path with a `Bearer ` header whose token parses; its email is the token's subject, its userId is the text of the token's string `userId` claim (none when missing or null), its role is the one read from the `role` claim, and its authorities are exactly ROLE_ + role |
| AuthenticationConverter.PublicPathSkipsHeaders | src/main/java/com/SwitchBoard/Gateway/Config/JwtAuthenticationConverter.java:30-36 | a public path gives no authentication whatever the headers |
| AuthenticationConverter.BearerIsCaseSensitive | src/main/java/com/SwitchBoard/Gateway/Config/JwtAuthenticationConverter.java:40-43 | a lower-case scheme, or `Bearer` without the space, gives no authentication |
| AuthenticationConverter.ConvertSucceedsIff | src/main/java/com/SwitchBoard/Gateway/Config/JwtAuthenticationConverter.java:38-86 | authentication succeeds iff the path is private, the header is Bearer, the token after 7 characters parses and userId and role have usable types; the email is the subject |
| AuthenticationConverter.NoKeysNoAuthentication | src/main/java/com/SwitchBoard/Gateway/Config/JwtAuthenticationConverter.java:83-86 | with an empty registry every request is left unauthenticated rather than failing |
| AuthenticationConverter.FirstListedRoleGranted | src/main/java/com/SwitchBoard/Gateway/Config/JwtAuthenticationConverter.java:58-79 | a role list grants exactly ROLE_ + its first role |

## Left out

- Concurrency and Reactor composition are not modelled. Requests run one
  after another, and the only atomic step is the single set-if-absent.
- The fire-and-forget `complete` is modelled as one synchronous store
  step that happens before the client write.
- Wall-clock reads are a `now` parameter. Redis TTL eviction is the
  explicit `Evict` operation.
- JSON serialization of records is not modelled. A stored value is a
  record or unreadable text, and a serialization failure counts as a
  failing store call.
- IdempotencyStore.IdempotencyService.TryAcquire: a failure reported after
  Redis has already written the value is not modelled. A failing call
  writes nothing.
- Redis's handling of TTLs is not modelled. It rounds to milliseconds and
  rejects non-positive values; here a TTL is any integer of nanoseconds.
- IdempotencyFilter.FilterRun: restarts are bounded by the list of passes.
  Running out of passes gives `Unfinished`; the source's recursion has no
  bound.
- IdempotencyFilter.Respond: `HttpStatus.valueOf` throws on an unknown
  stored status code. The model accepts any integer.
- The error raised when the null chain is invoked is the `NullChain`
  outcome, after the first-request headers. The Mono error it produces is
  not modelled.
- HTTP header names are matched case-sensitively. Spring matches them
  case-insensitively.
- Response bodies and token headers are strings of characters. UTF-8
  encoding and the platform charset of `new String(bytes)` are not
  modelled.
- `ResponseCaptureDecorator` overrides only `writeWith`, and only that
  is modelled; `writeAndFlushWith` is left out.
- The `endpoints` HashMap is given as its entries in iteration order,
  because Java does not fix that order.
- The entry sequence may repeat a pattern, which a HashMap cannot hold.
  The first equal entry wins, so `ExactIndex` and `Resolve` read a
  repeated pattern as the map would hold its first occurrence.
- The null fields of a `TtlConfig` built by its no-argument constructor
  are not modelled.
- KeyRegistry.JwksService.GetKey: the fallback returns some cached key,
  not the first one in ConcurrentHashMap order, which Java does not fix.
- The window between `clear` and `putAll` in the cache swap is a
  concurrency matter and is not modelled.
- The fetch schedule, the web client and JSON parsing of the JWK Set are
  not modelled. The parsed document is the input.
- `asText` renderings of non-string `kid`, `n` or `e` members are
  not modelled.
- RSA key construction, base64url decoding and jjwt signature and expiry
  checking are parameters. Their code is not part of this model.
- Claims cover only `sub`, `userId` and `role`. A non-string subject
  is taken as already rendered by `String.valueOf`. jjwt's numeric
  conversions in `get(name, type)` are not modelled.
- Logging is not modelled.
- TraceGlobalFilter.java, UserHeaderFilter.java, SecurityConfig.java and
  RedisConfig.java are not part of this model. They hold plumbing and
  configuration only.
