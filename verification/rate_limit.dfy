/** The fixed-window rate limiter in front of every `/api/` request: the
    route's limit, the client address, the counter key, and the
    count/remaining/reject decision. The counter store is a map from key
    to count plus the expiry set on each key; the remaining time reported
    by the store is a parameter.
 */
module RateLimit {
  import opened Results
  import opened JavaText

  /** At most `maxRequests` per window of `windowSeconds`. */
  datatype Limit = Limit(maxRequests: int, windowSeconds: int)

  /** The four configurable limits. */
  datatype RateConfig = RateConfig(login: Limit, register: Limit, transactions: Limit, default: Limit)

  /** The limits used when nothing is configured. */
  const DefaultConfig: RateConfig := RateConfig(Limit(5, 60), Limit(10, 3600), Limit(20, 60), Limit(100, 60))

  /** A configuration whose limits admit at least one request per window. */
  predicate ValidConfig(cfg: RateConfig) {
    && cfg.login.maxRequests >= 1 && cfg.register.maxRequests >= 1
    && cfg.transactions.maxRequests >= 1 && cfg.default.maxRequests >= 1
    && cfg.login.windowSeconds >= 1 && cfg.register.windowSeconds >= 1
    && cfg.transactions.windowSeconds >= 1 && cfg.default.windowSeconds >= 1
  }

  datatype Route = Login | Register | Transactions | Other

  const LoginPath: string := "/api/auth/login"
  const RegisterPath: string := "/api/auth/register"
  const TransactionsPrefix: string := "/api/transactions"

  /** The method is POST, compared ignoring case. */
  predicate IsPost(verb: string) {
    EqualsIgnoreCase("POST", verb)
  }

  /** `resolveLimit`, as the route whose limit applies: POST to the login
      path, POST to the register path, POST under the transactions prefix,
      and everything else. */
  function ResolveRoute(verb: string, path: string): (r: Route)
    ensures r == Login <==> IsPost(verb) && path == LoginPath
    ensures r == Register <==> IsPost(verb) && path == RegisterPath
    ensures r == Transactions <==>
      IsPost(verb) && path != LoginPath && path != RegisterPath && StartsWith(path, TransactionsPrefix)
    ensures !IsPost(verb) ==> r == Other
  {
    if IsPost(verb) then
      if path == LoginPath then Login
      else if path == RegisterPath then Register
      else if StartsWith(path, TransactionsPrefix) then Transactions
      else Other
    else Other
  }

  function LimitFor(cfg: RateConfig, r: Route): Limit {
    match r
    case Login => cfg.login
    case Register => cfg.register
    case Transactions => cfg.transactions
    case Other => cfg.default
  }

  /** The incoming request, reduced to what the filter reads. */
  datatype HttpRequest = HttpRequest(
    verb: string,
    path: string,
    forwardedFor: Option<string>,
    realIp: Option<string>,
    remoteAddr: string)

  /** A header that is present and not blank. */
  predicate Usable(h: Option<string>) {
    h.Some? && !IsBlank(h.value)
  }

  /** `extractClientIp` exactly as written: the first element of
      `X-Forwarded-For` split at commas, trimmed; else `X-Real-IP`, trimmed;
      else the peer address. A header made only of commas splits into no
      element at all, and taking the first one fails. */
  function ExtractClientIpAsWritten(req: HttpRequest): (r: Result<string>)
    ensures r.Err? <==> Usable(req.forwardedFor) && JavaSplit(req.forwardedFor.value, ',') == []
    ensures r.Err? ==> r.error == InternalError
    ensures !Usable(req.forwardedFor) ==>
      r == Ok(if Usable(req.realIp) then Trim(req.realIp.value) else req.remoteAddr)
  {
    if Usable(req.forwardedFor) then
      var parts := JavaSplit(req.forwardedFor.value, ',');
      if parts == [] then Err(InternalError) else Ok(Trim(parts[0]))
    else if Usable(req.realIp) then Ok(Trim(req.realIp.value))
    else Ok(req.remoteAddr)
  }

  /** `extractClientIp` as intended: the text before the first comma of
      `X-Forwarded-For`, trimmed, which never fails. */
  function ExtractClientIp(req: HttpRequest): (r: string)
    ensures Usable(req.forwardedFor) ==> ',' !in r && (r == [] || (r[0] > ' ' && r[|r| - 1] > ' '))
    ensures Usable(req.forwardedFor) ==>
      var x := req.forwardedFor.value;
      exists k :: 0 <= k <= |x| && ',' !in x[..k] && (k == |x| || x[k] == ',') && r == Trim(x[..k])
    ensures !Usable(req.forwardedFor) && Usable(req.realIp) ==> r == Trim(req.realIp.value)
    ensures !Usable(req.forwardedFor) && !Usable(req.realIp) ==> r == req.remoteAddr
  {
    if Usable(req.forwardedFor) then
      var x := req.forwardedFor.value;
      var first := FirstField(x, ',');
      TrimKeepsOut(first, ',');
      assert x[..|first|] == first;
      Trim(first)
    else if Usable(req.realIp) then Trim(req.realIp.value)
    else req.remoteAddr
  }

  /** Trimming only removes characters: one absent before is absent after. */
  lemma TrimKeepsOut(s: string, c: char)
    requires c !in s
    ensures c !in Trim(s)
  {
    var t := StripLeading(s);
    assert forall i :: 0 <= i < |t| ==> t[i] == s[|s| - |t| + i];
    var r := StripTrailing(t);
    assert forall i :: 0 <= i < |r| ==> r[i] == t[i];
  }

  /** The as-written extraction fails exactly on a usable `X-Forwarded-For`
      made only of commas, and otherwise agrees with the intended one. */
  lemma ExtractClientIpDiscrepancy(req: HttpRequest)
    ensures ExtractClientIpAsWritten(req).Err? <==>
      Usable(req.forwardedFor) && forall i :: 0 <= i < |req.forwardedFor.value| ==> req.forwardedFor.value[i] == ','
    ensures ExtractClientIpAsWritten(req).Ok? ==> ExtractClientIpAsWritten(req).value == ExtractClientIp(req)
  {
    if Usable(req.forwardedFor) {
      var x := req.forwardedFor.value;
      SplitEmptyIffOnlySeparators(x, ',');
      if JavaSplit(x, ',') != [] {
        SplitHead(x, ',');
      }
    }
  }

  /** The header value `,` is such an input. */
  lemma CommaOnlyHeaderFails()
    ensures ExtractClientIpAsWritten(HttpRequest("GET", "/api/accounts", Some(","), None, "10.0.0.1")) == Err(InternalError)
    ensures ExtractClientIp(HttpRequest("GET", "/api/accounts", Some(","), None, "10.0.0.1")) == ""
  {
    var req := HttpRequest("GET", "/api/accounts", Some(","), None, "10.0.0.1");
    assert !IsBlank(",") by {
      assert ","[0] == ',' && !IsJavaWhitespace(',');
    }
    ExtractClientIpDiscrepancy(req);
    assert FirstField(",", ',') == [];
  }

  const KeyPrefix: string := "rate_limit:"

  /** The counter key of a request. */
  function Key(verb: string, path: string, ip: string): string {
    KeyPrefix + verb + ":" + path + ":" + ip
  }

  /** The text before the first separator of `x + [sep] + y` is `x` when `x`
      has no separator. */
  lemma {:induction false} FirstFieldOfJoin(x: string, sep: char, y: string)
    requires sep !in x
    ensures FirstField(x + [sep] + y, sep) == x
    decreases |x|
  {
    if x != [] {
      assert (x + [sep] + y)[1..] == x[1..] + [sep] + y;
      assert sep !in x[1..] by {
        forall i | 0 <= i < |x[1..]| ensures x[1..][i] != sep {
          assert x[1..][i] == x[i + 1];
        }
      }
      FirstFieldOfJoin(x[1..], sep, y);
      assert [x[0]] + x[1..] == x;
    }
  }

  /** Keys of requests whose method and path contain no colon are distinct
      for distinct (method, path, address) triples: the key splits back
      into its parts. */
  lemma KeyInjective(m1: string, p1: string, ip1: string, m2: string, p2: string, ip2: string)
    requires ':' !in m1 && ':' !in p1 && ':' !in m2 && ':' !in p2
    requires Key(m1, p1, ip1) == Key(m2, p2, ip2)
    ensures m1 == m2 && p1 == p2 && ip1 == ip2
  {
    var k := Key(m1, p1, ip1);
    var n := |KeyPrefix|;
    var rest1 := m1 + [':'] + (p1 + [':'] + ip1);
    var rest2 := m2 + [':'] + (p2 + [':'] + ip2);
    assert k == KeyPrefix + rest1;
    assert k == KeyPrefix + rest2;
    assert rest1 == k[n..] == rest2;
    FirstFieldOfJoin(m1, ':', p1 + [':'] + ip1);
    FirstFieldOfJoin(m2, ':', p2 + [':'] + ip2);
    assert m1 == m2;
    var tail1 := p1 + [':'] + ip1;
    var tail2 := p2 + [':'] + ip2;
    assert tail1 == rest1[|m1| + 1..];
    assert tail2 == rest2[|m2| + 1..];
    FirstFieldOfJoin(p1, ':', ip1);
    FirstFieldOfJoin(p2, ':', ip2);
    assert p1 == p2;
    assert ip1 == tail1[|p1| + 1..];
    assert ip2 == tail2[|p2| + 1..];
  }

  /** The counter store: the count under each live key and the expiry, in
      seconds, set on it. */
  datatype Counters = Counters(counts: map<string, int>, expiry: map<string, int>)

  /** What the filter does with a request. `remaining` and `limit` are the
      values of the rate-limit headers; a rejected request is answered 429
      with a retry delay. */
  datatype Decision =
    | PassThrough
    | Admitted(limit: int, remaining: int)
    | Rejected(limit: int, remaining: int, retryAfter: int)

  /** The count a key holds; an absent (or expired) key counts zero. */
  function CountOf(c: Counters, key: string): int {
    if key in c.counts then c.counts[key] else 0
  }

  /** `INCR`, then `EXPIRE` with the window when the key was just created. */
  function Increment(c: Counters, key: string, window: int): (r: Counters)
    ensures CountOf(r, key) == CountOf(c, key) + 1
    ensures forall k :: k != key ==> CountOf(r, k) == CountOf(c, k)
    ensures CountOf(c, key) == 0 ==> key in r.expiry && r.expiry[key] == window
    ensures CountOf(c, key) != 0 ==> r.expiry == c.expiry
  {
    var n := CountOf(c, key) + 1;
    Counters(c.counts[key := n], if n == 1 then c.expiry[key := window] else c.expiry)
  }

  /** The store dropping a key whose expiry has passed. */
  function Expire(c: Counters, key: string): (r: Counters)
    ensures CountOf(r, key) == 0
    ensures forall k :: k != key ==> CountOf(r, k) == CountOf(c, k)
  {
    Counters(c.counts - {key}, c.expiry - {key})
  }

  /** The counter key the filter uses for a request. */
  function RequestKey(req: HttpRequest): string {
    Key(req.verb, req.path, ExtractClientIp(req))
  }

  /** The counting part of `doFilterInternal` for one key under one limit:
      the count rises by one, the remaining-requests header never drops
      below zero, and the request is rejected once the count exceeds the
      maximum, with the reported lifetime `ttl` as retry delay when it is
      positive and the window length otherwise. */
  function Admission(limit: Limit, c: Counters, key: string, ttl: int): (r: (Decision, Counters))
    ensures CountOf(r.1, key) == CountOf(c, key) + 1
    ensures forall k :: k != key ==> CountOf(r.1, k) == CountOf(c, k)
    ensures r.0.Rejected? <==> CountOf(c, key) + 1 > limit.maxRequests
    ensures !r.0.PassThrough?
    ensures r.0.limit == limit.maxRequests
    ensures r.0.remaining >= 0
    ensures CountOf(c, key) + 1 <= limit.maxRequests ==> r.0.remaining == limit.maxRequests - (CountOf(c, key) + 1)
    ensures r.0.Rejected? ==> r.0.remaining == 0
    ensures r.0.Rejected? ==> r.0.retryAfter == (if ttl > 0 then ttl else limit.windowSeconds)
  {
    var c2 := Increment(c, key, limit.windowSeconds);
    var count := CountOf(c2, key);
    var remaining := if limit.maxRequests - count > 0 then limit.maxRequests - count else 0;
    if count > limit.maxRequests then
      (Rejected(limit.maxRequests, remaining, if ttl > 0 then ttl else limit.windowSeconds), c2)
    else (Admitted(limit.maxRequests, remaining), c2)
  }

  /** `doFilterInternal`: requests outside `/api/` pass untouched; others
      are counted under their own key against their route's limit. */
  function Decide(cfg: RateConfig, c: Counters, req: HttpRequest, ttl: int): (r: (Decision, Counters))
    ensures !StartsWith(req.path, "/api/") ==> r == (PassThrough, c)
    ensures StartsWith(req.path, "/api/") ==>
      var limit := LimitFor(cfg, ResolveRoute(req.verb, req.path));
      var key := RequestKey(req);
      var count := CountOf(c, key) + 1;
      && CountOf(r.1, key) == count
      && (forall k :: k != key ==> CountOf(r.1, k) == CountOf(c, k))
      && (r.0.Rejected? <==> count > limit.maxRequests)
      && !r.0.PassThrough?
      && r.0.limit == limit.maxRequests
      && r.0.remaining >= 0
      && (count <= limit.maxRequests ==> r.0.remaining == limit.maxRequests - count)
      && (r.0.Rejected? ==> r.0.remaining == 0)
      && (r.0.Rejected? ==> r.0.retryAfter == (if ttl > 0 then ttl else limit.windowSeconds))
  {
    if !StartsWith(req.path, "/api/") then (PassThrough, c)
    else Admission(LimitFor(cfg, ResolveRoute(req.verb, req.path)), c, RequestKey(req), ttl)
  }

  /** `doFilterInternal` as written: on an `/api/` path the client address
      is extracted before anything is counted, so the failing extraction
      aborts the request with an internal error and leaves every counter as
      it was. Every other request is decided as by `Decide`. */
  function DecideAsWritten(cfg: RateConfig, c: Counters, req: HttpRequest, ttl: int): (r: Result<(Decision, Counters)>)
    ensures r.Err? <==>
      && StartsWith(req.path, "/api/") && Usable(req.forwardedFor)
      && forall i :: 0 <= i < |req.forwardedFor.value| ==> req.forwardedFor.value[i] == ','
    ensures r.Err? ==> r.error == InternalError
    ensures r.Ok? ==> r.value == Decide(cfg, c, req, ttl)
  {
    if !StartsWith(req.path, "/api/") then Ok((PassThrough, c))
    else
      ExtractClientIpDiscrepancy(req);
      var ip :- ExtractClientIpAsWritten(req);
      Ok(Admission(LimitFor(cfg, ResolveRoute(req.verb, req.path)), c, Key(req.verb, req.path, ip), ttl))
  }

  /** A request to the API carrying `X-Forwarded-For: ,` is answered with an
      internal error as written, while the intended filter counts it under
      the key with an empty address. */
  lemma CommaOnlyHeaderAbortsRequest(cfg: RateConfig, c: Counters, ttl: int)
    ensures var req := HttpRequest("GET", "/api/accounts", Some(","), None, "10.0.0.1");
      && DecideAsWritten(cfg, c, req, ttl) == Err(InternalError)
      && CountOf(Decide(cfg, c, req, ttl).1, Key("GET", "/api/accounts", "")) == CountOf(c, Key("GET", "/api/accounts", "")) + 1
  {
    var req := HttpRequest("GET", "/api/accounts", Some(","), None, "10.0.0.1");
    CommaOnlyHeaderFails();
    assert StartsWith(req.path, "/api/");
  }

  /** The store after `n` requests with the same key within one window. */
  function Repeat(limit: Limit, c: Counters, key: string, ttl: int, n: nat): Counters
    decreases n
  {
    if n == 0 then c else Admission(limit, Repeat(limit, c, key, ttl, n - 1), key, ttl).1
  }

  /** Each repetition adds one to the key's counter and to no other. */
  lemma {:induction false} RepeatCounts(limit: Limit, c: Counters, key: string, ttl: int, n: nat)
    ensures CountOf(Repeat(limit, c, key, ttl, n), key) == CountOf(c, key) + n
    ensures forall k :: k != key ==> CountOf(Repeat(limit, c, key, ttl, n), k) == CountOf(c, k)
    decreases n
  {
    if n > 0 {
      RepeatCounts(limit, c, key, ttl, n - 1);
    }
  }

  /** Within one window, starting from a key with no count, the `n`-th
      request is admitted exactly when `n` is at most the maximum: request
      number `max` still passes and number `max + 1` is refused. */
  lemma NthRequestAdmittedIffWithinLimit(limit: Limit, c: Counters, key: string, ttl: int, n: nat)
    requires CountOf(c, key) == 0
    requires n >= 1
    ensures Admission(limit, Repeat(limit, c, key, ttl, n - 1), key, ttl).0.Admitted? <==> n <= limit.maxRequests
  {
    RepeatCounts(limit, c, key, ttl, n - 1);
  }

  /** Once the key expires the counter starts afresh: the next request is
      the first of a new window and is admitted under any valid limit. */
  lemma ExpiryResetsWindow(cfg: RateConfig, c: Counters, req: HttpRequest, ttl: int)
    requires ValidConfig(cfg)
    requires StartsWith(req.path, "/api/")
    ensures var (d, c2) := Decide(cfg, Expire(c, RequestKey(req)), req, ttl);
      && d.Admitted?
      && CountOf(c2, RequestKey(req)) == 1
  {
  }

  /** Under the default limits, the sixth login attempt in a minute from one
      address is refused, with `Retry-After` falling back to the window when
      the store reports no lifetime. */
  lemma SixthLoginRefused(c: Counters, ip: string)
    requires CountOf(c, Key("POST", LoginPath, ip)) == 5
    ensures var req := HttpRequest("POST", LoginPath, None, None, ip);
      Decide(DefaultConfig, c, req, -1).0 == Rejected(5, 0, 60)
  {
    var req := HttpRequest("POST", LoginPath, None, None, ip);
    assert StartsWith(LoginPath, "/api/");
    assert IsPost("POST");
  }

  /** A GET under the transactions prefix is limited by the default, not the
      transactions limit. */
  lemma ReadsUseDefaultLimit()
    ensures ResolveRoute("GET", "/api/transactions/5") == Other
    ensures ResolveRoute("post", "/api/transactions/5") == Transactions
  {
    assert !IsPost("GET") by { assert Fold('G') != Fold('P'); }
    assert IsPost("post");
    assert StartsWith("/api/transactions/5", TransactionsPrefix);
  }
}
