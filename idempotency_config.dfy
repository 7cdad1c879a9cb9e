// Per-endpoint TTL resolution (Config/IdempotencyConfig.java). The
// `endpoints` HashMap is represented by its entry set in iteration order:
// a sequence of (pattern, TtlConfig) pairs.
// (Line comments are used in this file because the wildcard patterns would
// open nested block comments.)
module TtlResolution {
  import opened Wrappers
  import opened Strings
  import opened Time

  // How long an IN_PROGRESS and a COMPLETED record are kept.
  datatype TtlConfig = TtlConfig(inProgress: Duration, completed: Duration)

  type Endpoint = (string, TtlConfig)

  datatype IdempotencyConfig = IdempotencyConfig(defaults: TtlConfig, endpoints: seq<Endpoint>)

  // The defaults: 30 seconds IN_PROGRESS, 24 hours COMPLETED.
  const DefaultTtl: TtlConfig := TtlConfig(OfSeconds(30), OfSeconds(24 * 60 * 60))

  // A freshly constructed configuration, before properties are bound.
  const InitialConfig: IdempotencyConfig := IdempotencyConfig(DefaultTtl, [])

  // The lookup key of a request: method + ":" + path.
  function EndpointKey(httpMethod: string, path: string): string {
    httpMethod + ":" + path
  }

  // matches(pattern, key): "/**" patterns match by prefix, "/*" patterns
  // by prefix with no '/' in what follows it, other patterns by equality.
  // A pattern without a wildcard suffix matches exactly itself; the
  // wildcard cases are the lemmas below.
  predicate Matches(pattern: string, key: string)
    ensures !EndsWith(pattern, "/**") && !EndsWith(pattern, "/*") ==> (Matches(pattern, key) <==> key == pattern)
  {
    if EndsWith(pattern, "/**") then
      StartsWith(key, pattern[..|pattern| - 3])
    else if EndsWith(pattern, "/*") then
      var prefix := pattern[..|pattern| - 2];
      StartsWith(key, prefix) && '/' !in key[|prefix|..]
    else
      pattern == key
  }

  // The position of the first true flag.
  function FirstTrue(flags: seq<bool>): (r: Option<nat>)
    ensures r.None? <==> forall i :: 0 <= i < |flags| ==> !flags[i]
    ensures r.Some? ==> r.value < |flags| && flags[r.value]
    ensures r.Some? ==> forall j :: 0 <= j < r.value ==> !flags[j]
  {
    if flags == [] then None
    else if flags[0] then Some(0)
    else
      assert forall i :: 1 <= i < |flags| ==> flags[i] == flags[1..][i - 1];
      match FirstTrue(flags[1..])
      case None => None
      case Some(i) => Some(i + 1)
  }

  // endpoints.get(key): the position of the entry whose pattern is
  // exactly `key`.
  function ExactIndex(es: seq<Endpoint>, key: string): (r: Option<nat>)
    ensures r.None? <==> forall i :: 0 <= i < |es| ==> es[i].0 != key
    ensures r.Some? ==> r.value < |es| && es[r.value].0 == key
    ensures r.Some? ==> forall j :: 0 <= j < r.value ==> es[j].0 != key
  {
    var flags := seq(|es|, i requires 0 <= i < |es| => es[i].0 == key);
    assert forall i :: 0 <= i < |es| ==> (flags[i] <==> es[i].0 == key);
    FirstTrue(flags)
  }

  // The wildcard loop: the position of the first entry, in iteration
  // order, whose pattern matches `key`.
  function FirstMatchIndex(es: seq<Endpoint>, key: string): (r: Option<nat>)
    ensures r.None? <==> forall i :: 0 <= i < |es| ==> !Matches(es[i].0, key)
    ensures r.Some? ==> r.value < |es| && Matches(es[r.value].0, key)
    ensures r.Some? ==> forall j :: 0 <= j < r.value ==> !Matches(es[j].0, key)
  {
    var flags := seq(|es|, i requires 0 <= i < |es| => Matches(es[i].0, key));
    assert forall i :: 0 <= i < |es| ==> (flags[i] <==> Matches(es[i].0, key));
    FirstTrue(flags)
  }

  // resolve(method, path): exact entry, else first matching pattern, else
  // the defaults.
  function Resolve(cfg: IdempotencyConfig, httpMethod: string, path: string): (r: TtlConfig)
    ensures r == cfg.defaults || exists i :: (0 <= i < |cfg.endpoints| && r == cfg.endpoints[i].1
      && (cfg.endpoints[i].0 == EndpointKey(httpMethod, path) || Matches(cfg.endpoints[i].0, EndpointKey(httpMethod, path))))
    ensures r != cfg.defaults ==> cfg.endpoints != []
  {
    var key := EndpointKey(httpMethod, path);
    match ExactIndex(cfg.endpoints, key)
    case Some(i) => cfg.endpoints[i].1
    case None =>
      match FirstMatchIndex(cfg.endpoints, key)
      case Some(i) => cfg.endpoints[i].1
      case None => cfg.defaults
  }

  // HTTP method names hold no colon, so distinct (method, path) pairs get
  // distinct lookup keys.
  lemma EndpointKeyInjective(m1: string, p1: string, m2: string, p2: string)
    requires ':' !in m1 && ':' !in m2
    requires EndpointKey(m1, p1) == EndpointKey(m2, p2)
    ensures m1 == m2 && p1 == p2
  {
    var k := EndpointKey(m1, p1);
    assert k[|m1|] == ':';
    assert k[|m2|] == ':';
    assert |m1| == |m2|;
    assert m1 == k[..|m1|] == m2;
    assert p1 == k[|m1| + 1..] == p2;
  }

  // A "/**" pattern matches exactly the keys that start with the pattern
  // minus its last three characters, so "POST:/orders/**" also matches
  // "POST:/orders" and "POST:/ordersX".
  lemma MatchesMultiSegment(prefix: string, key: string)
    ensures Matches(prefix + "/**", key) <==> StartsWith(key, prefix)
  {
    var pattern := prefix + "/**";
    assert pattern[|pattern| - 3..] == "/**";
    assert pattern[..|pattern| - 3] == prefix;
  }

  // A "/*" pattern matches exactly the keys that start with the pattern
  // minus its last two characters and have no '/' after that prefix.
  lemma MatchesSingleSegment(prefix: string, key: string)
    ensures Matches(prefix + "/*", key) <==> StartsWith(key, prefix) && '/' !in key[|prefix|..]
  {
    var pattern := prefix + "/*";
    assert pattern[|pattern| - 2..] == "/*";
    assert pattern[|pattern| - 1] == '*' && pattern[|pattern| - 2] == '/';
    assert !EndsWith(pattern, "/**");
    assert pattern[..|pattern| - 2] == prefix;
  }

  // The single-segment quirk: "POST:/orders/*" never matches a child such
  // as "POST:/orders/123", because the text after the prefix starts with '/'.
  lemma SingleSegmentMissesChildren(prefix: string, segment: string)
    ensures !Matches(prefix + "/*", prefix + "/" + segment)
  {
    var key := prefix + "/" + segment;
    MatchesSingleSegment(prefix, key);
    assert key[|prefix|..][0] == '/';
  }

  // Any other pattern matches only the identical key.
  lemma MatchesLiteral(pattern: string, key: string)
    requires !EndsWith(pattern, "/**") && !EndsWith(pattern, "/*")
    ensures Matches(pattern, key) <==> pattern == key
  {
  }

  // An entry for the exact key wins, even over earlier wildcard entries
  // that match too.
  lemma {:induction false} ResolveExact(cfg: IdempotencyConfig, httpMethod: string, path: string, i: nat)
    requires i < |cfg.endpoints| && cfg.endpoints[i].0 == EndpointKey(httpMethod, path)
    requires forall j :: 0 <= j < i ==> cfg.endpoints[j].0 != EndpointKey(httpMethod, path)
    ensures Resolve(cfg, httpMethod, path) == cfg.endpoints[i].1
  {
    var r := ExactIndex(cfg.endpoints, EndpointKey(httpMethod, path));
    assert r.Some?;
    assert r.value == i;
  }

  // Without an exact entry, the first matching pattern in iteration order
  // decides, and the defaults are not used.
  lemma {:induction false} ResolveFirstMatch(cfg: IdempotencyConfig, httpMethod: string, path: string, i: nat)
    requires forall j :: 0 <= j < |cfg.endpoints| ==> cfg.endpoints[j].0 != EndpointKey(httpMethod, path)
    requires i < |cfg.endpoints| && Matches(cfg.endpoints[i].0, EndpointKey(httpMethod, path))
    requires forall j :: 0 <= j < i ==> !Matches(cfg.endpoints[j].0, EndpointKey(httpMethod, path))
    ensures Resolve(cfg, httpMethod, path) == cfg.endpoints[i].1
  {
    var r := FirstMatchIndex(cfg.endpoints, EndpointKey(httpMethod, path));
    assert r.Some?;
    assert r.value == i;
  }

  // When no entry equals or matches the key, the defaults are returned.
  lemma ResolveDefaults(cfg: IdempotencyConfig, httpMethod: string, path: string)
    requires forall j :: 0 <= j < |cfg.endpoints| ==>
      cfg.endpoints[j].0 != EndpointKey(httpMethod, path) && !Matches(cfg.endpoints[j].0, EndpointKey(httpMethod, path))
    ensures Resolve(cfg, httpMethod, path) == cfg.defaults
  {
  }

  // Without configured endpoints every request gets 30 seconds IN_PROGRESS
  // and 24 hours COMPLETED.
  lemma InitialConfigResolvesDefaults(httpMethod: string, path: string)
    ensures Resolve(InitialConfig, httpMethod, path) == TtlConfig(OfSeconds(30), OfSeconds(86_400))
  {
  }

  // The worked example: with "POST:/orders/**" and "POST:/orders/special"
  // configured, POST /orders/special gets the exact entry, POST /orders/123
  // the wildcard entry and POST /other the defaults.
  const OrdersWildcard: string := "POST:/orders/**"
  const OrdersSpecial: string := "POST:/orders/special"

  lemma ResolveExampleExact(ttlA: TtlConfig, ttlB: TtlConfig, defaults: TtlConfig)
    ensures Resolve(IdempotencyConfig(defaults, [(OrdersWildcard, ttlA), (OrdersSpecial, ttlB)]), "POST", "/orders/special") == ttlB
  {
    var cfg := IdempotencyConfig(defaults, [(OrdersWildcard, ttlA), (OrdersSpecial, ttlB)]);
    assert EndpointKey("POST", "/orders/special") == OrdersSpecial;
    assert OrdersWildcard != OrdersSpecial by { assert OrdersWildcard[13] != OrdersSpecial[13]; }
    ResolveExact(cfg, "POST", "/orders/special", 1);
  }

  lemma ResolveExampleWildcard(ttlA: TtlConfig, ttlB: TtlConfig, defaults: TtlConfig)
    ensures Resolve(IdempotencyConfig(defaults, [(OrdersWildcard, ttlA), (OrdersSpecial, ttlB)]), "POST", "/orders/123") == ttlA
  {
    var cfg := IdempotencyConfig(defaults, [(OrdersWildcard, ttlA), (OrdersSpecial, ttlB)]);
    var key := EndpointKey("POST", "/orders/123");
    assert key == "POST:/orders/123";
    assert key != OrdersWildcard && key != OrdersSpecial by {
      assert key[13] != OrdersWildcard[13] && key[13] != OrdersSpecial[13];
    }
    assert "POST:/orders" + "/**" == OrdersWildcard;
    MatchesMultiSegment("POST:/orders", key);
    assert key[..12] == "POST:/orders";
    ResolveFirstMatch(cfg, "POST", "/orders/123", 0);
  }

  lemma ResolveExampleDefaults(ttlA: TtlConfig, ttlB: TtlConfig, defaults: TtlConfig)
    ensures Resolve(IdempotencyConfig(defaults, [(OrdersWildcard, ttlA), (OrdersSpecial, ttlB)]), "POST", "/other") == defaults
  {
    var cfg := IdempotencyConfig(defaults, [(OrdersWildcard, ttlA), (OrdersSpecial, ttlB)]);
    var key := EndpointKey("POST", "/other");
    assert key == "POST:/other";
    assert "POST:/orders" + "/**" == OrdersWildcard;
    MatchesMultiSegment("POST:/orders", key);
    assert !StartsWith(key, "POST:/orders") by { assert key[8] != "POST:/orders"[8]; }
    assert !EndsWith(OrdersSpecial, "/**") && !EndsWith(OrdersSpecial, "/*") by {
      assert OrdersSpecial[|OrdersSpecial| - 1] == 'l';
    }
    MatchesLiteral(OrdersSpecial, key);
    assert key != OrdersWildcard && key != OrdersSpecial by {
      assert key[8] != OrdersWildcard[8] && key[8] != OrdersSpecial[8];
    }
    ResolveDefaults(cfg, "POST", "/other");
  }
}
