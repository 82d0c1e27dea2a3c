/** The admission middleware of pkg/core/middleware/limiterMidleware.go:
    client-IP resolution, the allow/deny lists, the configuration it loads
    and the per-request decision. The token bucket's Allow() answer, the
    printed token count and the clock are inputs of a request. */
module RateLimitMiddleware {
  import opened Wrappers
  import opened GoStrings
  import opened GoTime
  import opened Limiter
  import AppConfig
  import opened Http

  datatype Request = Request(header: Header, remoteAddr: string)

  // ---------------------------------------------------------------------
  // Client IP

  /** The host part of RemoteAddr, or RemoteAddr itself when it does not split. */
  function RemoteHost(remoteAddr: string): (host: string)
    ensures SplitHostPort(remoteAddr).Failure? ==> host == remoteAddr
    ensures SplitHostPort(remoteAddr).Success? ==> host == SplitHostPort(remoteAddr).value.0
  {
    match SplitHostPort(remoteAddr)
    case Success(hp) => hp.0
    case Failure(_) => remoteAddr
  }

  /** getClientIP: CF-Connecting-IP, then X-Real-IP, then the first
      comma-separated element of X-Forwarded-For, trimmed, then the host
      part of RemoteAddr; the first of the three headers that is present wins. */
  function ClientIP(r: Request): (ip: string)
    ensures HeaderGet(r.header, "CF-Connecting-IP") != "" ==> ip == HeaderGet(r.header, "CF-Connecting-IP")
    ensures HeaderGet(r.header, "CF-Connecting-IP") == "" && HeaderGet(r.header, "X-Real-IP") != ""
            ==> ip == HeaderGet(r.header, "X-Real-IP")
    ensures HeaderGet(r.header, "CF-Connecting-IP") == "" && HeaderGet(r.header, "X-Real-IP") == ""
            && HeaderGet(r.header, "X-Forwarded-For") != ""
            ==> ip == TrimSpace(Split(HeaderGet(r.header, "X-Forwarded-For"), ',')[0])
    ensures HeaderGet(r.header, "CF-Connecting-IP") == "" && HeaderGet(r.header, "X-Real-IP") == ""
            && HeaderGet(r.header, "X-Forwarded-For") == ""
            ==> ip == RemoteHost(r.remoteAddr)
  {
    var cfIP := HeaderGet(r.header, "CF-Connecting-IP");
    if cfIP != "" then cfIP
    else
      var realIP := HeaderGet(r.header, "X-Real-IP");
      if realIP != "" then realIP
      else
        var forwardedFor := HeaderGet(r.header, "X-Forwarded-For");
        if forwardedFor != "" then
          var ips := Split(forwardedFor, ',');
          TrimSpace(ips[0])
        else RemoteHost(r.remoteAddr)
  }

  /** From X-Forwarded-For the resolver takes the part before the first comma
      (all of it when there is none), with white space trimmed. */
  lemma ForwardedForFirstHop(r: Request)
    requires HeaderGet(r.header, "CF-Connecting-IP") == "" && HeaderGet(r.header, "X-Real-IP") == ""
    requires HeaderGet(r.header, "X-Forwarded-For") != ""
    ensures var xff := HeaderGet(r.header, "X-Forwarded-For");
            exists k :: 0 <= k <= |xff| && ',' !in xff[..k] && (k == |xff| || xff[k] == ',')
                        && ClientIP(r) == TrimSpace(xff[..k])
  {
    var xff := HeaderGet(r.header, "X-Forwarded-For");
    SplitHead(xff, ',');
    var k := |Split(xff, ',')[0]|;
    assert xff[..k] == Split(xff, ',')[0];
  }

  /** With no proxy header, a "host:port" address resolves to its host, and an
      address without a port resolves to itself. */
  lemma RemoteAddrFallback(r: Request)
    requires HeaderGet(r.header, "CF-Connecting-IP") == "" && HeaderGet(r.header, "X-Real-IP") == ""
    requires HeaderGet(r.header, "X-Forwarded-For") == ""
    ensures ':' !in r.remoteAddr ==> ClientIP(r) == r.remoteAddr
    ensures SplitHostPort(r.remoteAddr).Success? ==>
      exists port :: ':' !in port && (r.remoteAddr == ClientIP(r) + ":" + port || r.remoteAddr == "[" + ClientIP(r) + "]:" + port)
  {
    if SplitHostPort(r.remoteAddr).Success? {
      var port := SplitHostPort(r.remoteAddr).value.1;
      assert ':' !in port;
    }
  }

  /** When X-Forwarded-For is "<first>,<rest>", the client IP is <first>
      trimmed: <first> itself when it has no white space at either end, and
      "" when it is blank (the resolver does not guard against that case). */
  lemma FirstHopOf(header: Header, remoteAddr: string, first: string, rest: string)
    requires HeaderGet(header, "CF-Connecting-IP") == "" && HeaderGet(header, "X-Real-IP") == ""
    requires HeaderGet(header, "X-Forwarded-For") == first + "," + rest
    requires ',' !in first
    ensures ClientIP(Request(header, remoteAddr)) == TrimSpace(first)
    ensures (|first| > 0 ==> !IsSpace(first[0]) && !IsSpace(first[|first| - 1]))
            ==> ClientIP(Request(header, remoteAddr)) == first
    ensures (forall i :: 0 <= i < |first| ==> IsSpace(first[i])) ==> ClientIP(Request(header, remoteAddr)) == ""
  {
    assert first + "," + rest == first + [','] + rest;
    SplitAtFirst(first, rest, ',');
    TrimSpaceEmpty(first);
    if |first| > 0 ==> !IsSpace(first[0]) && !IsSpace(first[|first| - 1]) {
      TrimSpaceUnchanged(first);
    }
  }

  /** Without proxy headers, a plain "host:port" RemoteAddr resolves to its host. */
  lemma RemoteAddrHost(header: Header, host: string, port: string)
    requires HeaderGet(header, "CF-Connecting-IP") == "" && HeaderGet(header, "X-Real-IP") == ""
    requires HeaderGet(header, "X-Forwarded-For") == ""
    requires ':' !in host && '[' !in host && ']' !in host
    requires ':' !in port && '[' !in port && ']' !in port
    ensures ClientIP(Request(header, host + ":" + port)) == host
  {
    SplitHostPortJoin(host, port);
  }

  lemma CloudflareFirstExample()
    ensures ClientIP(Request(map["CF-Connecting-IP" := "203.0.113.5", "X-Real-IP" := "10.0.0.3"], "")) == "203.0.113.5"
  {
  }


  // ---------------------------------------------------------------------
  // Configuration

  /** RateLimitConfig; `duration` is in nanoseconds. */
  datatype RateLimitConfig = RateLimitConfig(
    enabled: bool, limit: int, duration: int, whitelistIPs: seq<string>, blacklistIPs: seq<string>)

  /** loadRateLimitConfig: an unparseable RATE_LIMIT_DURATION becomes one
      minute, a non-positive configured limit becomes 100, and the two lists
      are the comma-separated pieces of their variables. */
  function LoadRateLimitConfig(env: AppConfig.Env, global: AppConfig.Config): (c: RateLimitConfig)
    reads global
    ensures c.enabled == global.RateLimitEnabled
    ensures c.limit >= 1
    ensures global.RateLimit > 0 ==> c.limit == global.RateLimit
    ensures global.RateLimit <= 0 ==> c.limit == 100
    ensures ParseDuration(AppConfig.Getenv(env, "RATE_LIMIT_DURATION")).Failure? ==> c.duration == Minute
    ensures ParseDuration(AppConfig.Getenv(env, "RATE_LIMIT_DURATION")).Success? ==>
            c.duration == ParseDuration(AppConfig.Getenv(env, "RATE_LIMIT_DURATION")).value
    ensures Join(c.whitelistIPs, ",") == AppConfig.Getenv(env, "RATE_LIMIT_WHITELIST")
    ensures Join(c.blacklistIPs, ",") == AppConfig.Getenv(env, "RATE_LIMIT_BLACKLIST")
    ensures forall i :: 0 <= i < |c.whitelistIPs| ==> ',' !in c.whitelistIPs[i]
    ensures forall i :: 0 <= i < |c.blacklistIPs| ==> ',' !in c.blacklistIPs[i]
  {
    var duration := match ParseDuration(AppConfig.Getenv(env, "RATE_LIMIT_DURATION"))
      case Success(d) => d
      case Failure(_) => Minute;
    var limit := if global.RateLimit <= 0 then 100 else global.RateLimit;
    JoinSplit(AppConfig.Getenv(env, "RATE_LIMIT_WHITELIST"), ',');
    JoinSplit(AppConfig.Getenv(env, "RATE_LIMIT_BLACKLIST"), ',');
    RateLimitConfig(
      global.RateLimitEnabled, limit, duration,
      Split(AppConfig.Getenv(env, "RATE_LIMIT_WHITELIST"), ','),
      Split(AppConfig.Getenv(env, "RATE_LIMIT_BLACKLIST"), ','))
  }

  // ---------------------------------------------------------------------
  // Allow and deny lists

  /** The elements of a configured list, each with its white space trimmed. */
  function Trimmed(items: seq<string>): (ts: seq<string>)
    ensures |ts| == |items| && forall i :: 0 <= i < |items| ==> ts[i] == TrimSpace(items[i])
  {
    seq(|items|, i requires 0 <= i < |items| => TrimSpace(items[i]))
  }

  /** The non-empty strings among `ts`. */
  function Entries(ts: seq<string>): set<string>
  {
    if |ts| == 0 then {}
    else Entries(ts[..|ts| - 1]) + (if ts[|ts| - 1] != "" then {ts[|ts| - 1]} else {})
  }

  /** The IPs named by a configured list: its elements, trimmed, without the empty ones. */
  function ListEntries(items: seq<string>): set<string>
  {
    Entries(Trimmed(items))
  }

  /** An IP is named by a list exactly when some element trims to it. */
  lemma ListEntriesMembers(items: seq<string>, ip: string)
    ensures ip in ListEntries(items) <==> ip != "" && exists i :: 0 <= i < |items| && TrimSpace(items[i]) == ip
  {
    var ts := Trimmed(items);
    if ip in Entries(ts) {
      var i := EntriesSound(ts, ip);
      assert TrimSpace(items[i]) == ip;
    }
    if ip != "" && exists i :: 0 <= i < |items| && TrimSpace(items[i]) == ip {
      var i :| 0 <= i < |items| && TrimSpace(items[i]) == ip;
      EntriesComplete(ts, i);
    }
  }

  /** Every string of Entries(ts) is a non-empty element of ts. */
  lemma {:induction false} EntriesSound(ts: seq<string>, ip: string) returns (i: nat)
    requires ip in Entries(ts)
    ensures i < |ts| && ts[i] == ip && ip != ""
  {
    var n := |ts| - 1;
    var init := ts[..n];
    if ip in Entries(init) {
      i := EntriesSound(init, ip);
      assert ts[i] == init[i];
    } else {
      i := n;
    }
  }

  /** Every non-empty element of ts is in Entries(ts). */
  lemma {:induction false} EntriesComplete(ts: seq<string>, i: nat)
    requires i < |ts| && ts[i] != ""
    ensures ts[i] in Entries(ts)
  {
    var n := |ts| - 1;
    var init := ts[..n];
    if i < n {
      assert init[i] == ts[i];
      EntriesComplete(init, i);
    }
  }

  /** Taking one more element of the list adds the IP it names, if any. */
  lemma ListEntriesSnoc(items: seq<string>, i: nat)
    requires i < |items|
    ensures var t := TrimSpace(items[i]);
            ListEntries(items[..i + 1]) == ListEntries(items[..i]) + (if t != "" then {t} else {})
  {
    var ts := Trimmed(items[..i + 1]);
    assert ts[..i] == Trimmed(items[..i]);
    assert ts[i] == TrimSpace(items[i]);
  }

  /** The package-level whitelistedIPs and blacklistedIPs sets. */
  class IPLists {
    var whitelisted: set<string>
    var blacklisted: set<string>

    constructor ()
      ensures whitelisted == {} && blacklisted == {}
    {
      whitelisted, blacklisted := {}, {};
    }

    /** isIPWhitelisted: a lookup in the set, false for an IP never added. */
    predicate IsIPWhitelisted(ip: string)
      reads this
      ensures IsIPWhitelisted(ip) <==> ip in whitelisted
    {
      ip in whitelisted
    }

    /** isIPBlacklisted: the same lookup in the other set. */
    predicate IsIPBlacklisted(ip: string)
      reads this
      ensures IsIPBlacklisted(ip) <==> ip in blacklisted
    {
      ip in blacklisted
    }

    /** initializeIPLists: adds every non-empty trimmed entry of the two
        configured lists; nothing is ever removed. */
    method InitializeIPLists(config: RateLimitConfig)
      modifies this
      ensures whitelisted == old(whitelisted) + ListEntries(config.whitelistIPs)
      ensures blacklisted == old(blacklisted) + ListEntries(config.blacklistIPs)
    {
      whitelisted := AddEntries(whitelisted, config.whitelistIPs);
      blacklisted := AddEntries(blacklisted, config.blacklistIPs);
    }
  }

  /** One loop of initializeIPLists: each element of `items` is trimmed and,
      when something is left, added to `ips`. */
  method AddEntries(ips: set<string>, items: seq<string>) returns (r: set<string>)
    ensures r == ips + ListEntries(items)
  {
    r := ips;
    for i := 0 to |items|
      invariant r == ips + ListEntries(items[..i])
    {
      ListEntriesSnoc(items, i);
      var ip := TrimSpace(items[i]);
      if ip != "" {
        r := r + {ip};
      }
    }
    assert items[..|items|] == items;
  }

  // ---------------------------------------------------------------------
  // The handler

  /** What LimiterMiddleware returns: `next` itself, or the limiting handler
      with its configuration and the registry it created. */
  datatype Handler = Next | Limited(config: RateLimitConfig, registry: IPRateLimiter)

  /** The outcome of one request: passed on to `next` unchanged, with the
      response headers the middleware set, or answered with an error status
      and a JSON error body carrying `message`. */
  datatype Outcome =
    | Forwarded(headers: Header)
    | Rejected(status: int, message: string, headers: Header)

  /** The Retry-After value: the window in whole seconds, truncated as Go's
      integer division truncates. */
  function RetryAfterSeconds(duration: int): (s: int)
    ensures duration >= 0 ==> s >= 0 && s * Second <= duration < s * Second + Second
    ensures duration < 0 ==> s <= 0 && duration <= s * Second < duration + Second
  {
    TruncDiv(duration, Second)
  }

  /** setRateLimitHeaders; `remaining` is the printed token count of the bucket. */
  function RateLimitHeaders(config: RateLimitConfig, remaining: string, now: int): (h: Header)
    ensures h.Keys == {"X-RateLimit-Limit", "X-RateLimit-Remaining", "X-RateLimit-Reset"}
    ensures h["X-RateLimit-Limit"] == Itoa(config.limit)
    ensures h["X-RateLimit-Remaining"] == remaining
    ensures h["X-RateLimit-Reset"] == Itoa(UnixSeconds(now + config.duration))
  {
    map["X-RateLimit-Limit" := Itoa(config.limit),
        "X-RateLimit-Remaining" := remaining,
        "X-RateLimit-Reset" := Itoa(UnixSeconds(now + config.duration))]
  }

  /** handleRateLimitExceeded (without its log line): 429, with Retry-After
      and the message both giving the window in whole seconds. */
  function RateLimitExceeded(headers: Header, config: RateLimitConfig): (out: Outcome)
    ensures out.Rejected? && out.status == 429
    ensures out.headers.Keys == headers.Keys + {"Retry-After", "Content-Type"}
    ensures forall k :: k in headers && k != "Retry-After" && k != "Content-Type" ==> out.headers[k] == headers[k]
    ensures out.headers["Retry-After"] == Itoa(RetryAfterSeconds(config.duration))
    ensures out.message == "Rate limit exceeded. Please try again in " + out.headers["Retry-After"] + " seconds"
  {
    var seconds := Itoa(RetryAfterSeconds(config.duration));
    Rejected(429, "Rate limit exceeded. Please try again in " + seconds + " seconds",
             headers["Retry-After" := seconds]["Content-Type" := "application/json"])
  }

  /** The limit header parses back to the configured limit. */
  lemma LimitHeaderRoundTrip(config: RateLimitConfig, remaining: string, now: int)
    requires MinInt64 <= config.limit <= MaxInt64
    ensures ParseInt(RateLimitHeaders(config, remaining, now)["X-RateLimit-Limit"]) == Success(config.limit)
  {
    ParseItoa(config.limit);
  }

  /** The reset header parses back to the second in which the current window ends. */
  lemma ResetHeaderRoundTrip(config: RateLimitConfig, remaining: string, now: int)
    requires 0 <= now + config.duration <= MaxInt64
    ensures var reset := UnixSeconds(now + config.duration);
            && ParseInt(RateLimitHeaders(config, remaining, now)["X-RateLimit-Reset"]) == Success(reset)
            && reset * Second <= now + config.duration < (reset + 1) * Second
  {
    var reset := UnixSeconds(now + config.duration);
    assert 0 <= reset <= MaxInt64;
    ParseItoa(reset);
  }

  /** The Retry-After header parses back to the configured window in whole seconds. */
  lemma RetryAfterRoundTrip(headers: Header, config: RateLimitConfig)
    requires 0 <= config.duration <= MaxInt64
    ensures var out := RateLimitExceeded(headers, config);
            ParseInt(out.headers["Retry-After"]).Success?
            && var s := ParseInt(out.headers["Retry-After"]).value;
               s * Second <= config.duration < (s + 1) * Second
  {
    var s := RetryAfterSeconds(config.duration);
    assert s <= config.duration;
    ParseItoa(s);
  }

  /** Scenario: a ten-second window gives "Retry-After: 10". */
  lemma TenSecondWindow(headers: Header, c: RateLimitConfig)
    requires c.duration == 10 * Second
    ensures RateLimitExceeded(headers, c).headers["Retry-After"] == "10"
  {
    assert RetryAfterSeconds(10 * Second) == 10;
  }

  /** LimiterMiddleware: when rate limiting is disabled this is `next` itself
      and nothing else happens; otherwise the lists are extended from the
      configuration and a fresh, empty registry is created. */
  method LimiterMiddleware(env: AppConfig.Env, global: AppConfig.Config, lists: IPLists) returns (h: Handler)
    modifies lists
    ensures var c := LoadRateLimitConfig(env, global);
            !c.enabled ==> h == Next && unchanged(lists)
    ensures var c := LoadRateLimitConfig(env, global);
            c.enabled ==>
              && h.Limited? && h.config == c
              && fresh(h.registry) && h.registry.Valid() && h.registry.ips == map[]
              && h.registry.r == Every(c.duration) && h.registry.b == c.limit
              && lists.whitelisted == old(lists.whitelisted) + ListEntries(c.whitelistIPs)
              && lists.blacklisted == old(lists.blacklisted) + ListEntries(c.blacklistIPs)
  {
    var config := LoadRateLimitConfig(env, global);
    if !config.enabled {
      return Next;
    }
    lists.InitializeIPLists(config);
    var rateLimiter := new IPRateLimiter(Every(config.duration), config.limit);
    h := Limited(config, rateLimiter);
  }

  /** The handler LimiterMiddleware returns, serving one request `req` at
      time `now`. `allowed` is what the IP's bucket answers to Allow(), and
      `remaining` its printed token count.
      - whitelisted: forwarded untouched, registry not consulted;
      - else blacklisted: 403 "Access denied", no rate-limit headers, registry untouched;
      - else the IP's entry is fetched or created and marked seen, the three
        rate-limit headers are set, and then the request is either refused
        with 429 or forwarded with the client IP and the active-IP count. */
  method ServeHTTP(h: Handler, lists: IPLists, req: Request, now: int, allowed: bool, remaining: string)
    returns (out: Outcome)
    requires h.Limited? ==> h.registry.Valid()
    modifies if h.Limited? then {h.registry} else {}
    ensures h.Limited? ==> h.registry.Valid()
    ensures h == Next ==> out == Forwarded(map[])
    ensures h.Limited? && lists.IsIPWhitelisted(ClientIP(req)) ==>
            out == Forwarded(map[]) && unchanged(h.registry)
    ensures h.Limited? && !lists.IsIPWhitelisted(ClientIP(req)) && lists.IsIPBlacklisted(ClientIP(req)) ==>
            out == Rejected(403, "Access denied", map["Content-Type" := "application/json"]) && unchanged(h.registry)
    ensures h.Limited? && !lists.IsIPWhitelisted(ClientIP(req)) && !lists.IsIPBlacklisted(ClientIP(req)) ==>
            var ip, reg := ClientIP(req), h.registry;
            && ip in reg.ips && reg.ips.Keys == old(reg.ips.Keys) + {ip} && reg.ips[ip].lastSeen == now
            && reg.ips == old(reg.ips)[ip := reg.ips[ip]]
            && (ip in old(reg.ips) ==> reg.ips[ip].limiter == old(reg.ips[ip].limiter))
            && (!allowed ==> out == RateLimitExceeded(RateLimitHeaders(h.config, remaining, now), h.config))
            && (allowed ==> out == Forwarded(RateLimitHeaders(h.config, remaining, now)
                                               ["X-Rate-Limit-IP" := ip]
                                               ["X-Rate-Limit-Active-IPs" := Itoa(|reg.ips|)]))
  {
    match h
    case Next =>
      out := Forwarded(map[]);
    case Limited(config, rateLimiter) =>
      var clientIP := ClientIP(req);
      if lists.IsIPWhitelisted(clientIP) {
        out := Forwarded(map[]);
        return;
      }
      if lists.IsIPBlacklisted(clientIP) {
        out := Rejected(403, "Access denied", map["Content-Type" := "application/json"]);
        return;
      }
      out := LimitRequest(config, rateLimiter, clientIP, now, allowed, remaining);
  }

  /** The handler's path for an IP on neither list: its entry is fetched or
      created and marked seen at `now`, the rate-limit headers are set, and
      the request is refused with 429 or forwarded with the client IP and the
      active-IP count. */
  method LimitRequest(config: RateLimitConfig, reg: IPRateLimiter, ip: string, now: int, allowed: bool, remaining: string)
    returns (out: Outcome)
    requires reg.Valid()
    modifies reg
    ensures reg.Valid()
    ensures ip in reg.ips && reg.ips.Keys == old(reg.ips.Keys) + {ip} && reg.ips[ip].lastSeen == now
    ensures reg.ips == old(reg.ips)[ip := reg.ips[ip]]
    ensures ip in old(reg.ips) ==> reg.ips[ip].limiter == old(reg.ips[ip].limiter)
    ensures !allowed ==> out == RateLimitExceeded(RateLimitHeaders(config, remaining, now), config)
    ensures allowed ==> out == Forwarded(RateLimitHeaders(config, remaining, now)
                                           ["X-Rate-Limit-IP" := ip]
                                           ["X-Rate-Limit-Active-IPs" := Itoa(|reg.ips|)])
  {
    var limiter := reg.GetLimiter(ip, now);
    var headers := RateLimitHeaders(config, remaining, now);
    if !allowed {
      out := RateLimitExceeded(headers, config);
      return;
    }
    headers := headers["X-Rate-Limit-IP" := ip];
    headers := headers["X-Rate-Limit-Active-IPs" := Itoa(reg.GetIPCount())];
    out := Forwarded(headers);
  }
}
