/** What holds of every connection, whatever the client sends and however it arrives. */
module HandleClientLaws {
  import opened Wrappers
  import opened Text
  import opened Reading
  import opened Http
  import opened Response
  import opened Relay
  import opened JsonError
  import opened Auth
  import opened Jwt
  import opened CheckToken
  import opened Proxy
  import opened ProxyLaws
  import opened IdentityLaws
  import opened Router
  import opened HandleClient
  import opened IntakeLaws
  import opened ReplyLaws
  import RL = RateLimiter

  // ------------------------------------------------------------------ shapes

  /** All runs there are: the socket is closed once, at the end; at most one reply; the limiter
      is asked at most once, the upstream only after the limiter has allowed the request. */
  ghost predicate RunShape(e: seq<Effect>) {
    || e == [Closed]
    || (|e| == 2 && e[0].Replied? && e[1].Closed?)
    || (|e| == 3 && e[0].LimiterAsked? && e[1].Replied? && e[2].Closed?)
    || (|e| == 4 && e[0] == LimiterAsked(true) && e[1].UpstreamCalled? && e[2].Replied? && e[3].Closed?)
  }

  lemma RunShapes(w: World, keep: nat, limiter: RL.State)
    requires keep <= 4
    ensures RunShape(Serve(w, keep, limiter).effects)
  {
    hide TakeIn, ErrorResponse, RL.Step, Dispatch, ResponseWire;
    match TakeIn(w, keep) {
      case Taken(req) => DispatchShapes(w, req);
      case _ =>
    }
  }

  /** One reply and a close, or those after one call upstream. */
  ghost predicate DispatchShape(d: seq<Effect>) {
    || (|d| == 2 && d[0].Replied? && d[1].Closed?)
    || (|d| == 3 && d[0].UpstreamCalled? && d[1].Replied? && d[2].Closed?)
  }

  lemma DispatchShapes(w: World, req: HttpRequest)
    ensures DispatchShape(Dispatch(w, req))
  {
    hide ErrorResponse, HealthResponse, Outcome, HasScope, Bearer, Reason, MatchRoute, ResponseWire, ParseUpstream,
         UpstreamWire, ProxyReply, Contact;
  }

  // ------------------------------------------------------------------- gates

  /** Everything a request must pass before the upstream hears of it, in the order it is checked. */
  ghost predicate Passes(w: World, keep: nat, limiter: RL.State,
                         req: HttpRequest, route: RouteResult, auth: AuthInfo, addr: UpstreamAddr)
    requires keep <= 4
  {
    && TakeIn(w, keep) == Taken(req)
    && RL.Step(true, limiter, w.clientIp, w.seconds).1
    && MatchRoute(req.verb, req.target, w.cfg) == route && route.Api?
    && var token := Bearer(req.Header("authorization"));
    && token != "" && |token| <= MAX_TOKEN
    && Outcome(w.env, token, w.cfg.jwtSecret, w.cfg.jwtIssuer, w.now, w.later, w.order) == (auth, NoError)
    && HasScope(auth, route.area, route.requiredScope)
    && route.upstreamBase != "" && ParseUpstream(route.upstreamBase) == Ok(addr)
  }

  lemma OkMeansNoError(env: Env, token: string, secret: string, issuer: string, now: int, later: int,
                       order: seq<ClaimKey>)
    ensures var (info, error) := Outcome(env, token, secret, issuer, now, later, order); info.ok <==> error == NoError
  {
    hide DecodeToken, Verify, StringList, StringClaim, StillFresh;
  }

  /** The upstream is sent a wire exactly when every gate is passed and it accepts the connection, and
      the wire is the printed request of the identity that passed them. */
  lemma UpstreamCalledIff(w: World, keep: nat, limiter: RL.State, host: string, port: int, wire: string)
    requires keep <= 4
    ensures UpstreamCalled(host, port, wire) in Serve(w, keep, limiter).effects <==>
            exists req, route, auth, addr ::
              && Passes(w, keep, limiter, req, route, auth, addr)
              && host == addr.host && port == addr.port && w.connect(host, port).Connected?
              && wire == UpstreamWire(addr, req, route.forwardPath, auth)
  {
    hide TakeIn, ErrorResponse, HealthResponse, Outcome, HasScope, Bearer, Reason, MatchRoute, ResponseWire,
         ParseUpstream, UpstreamWire, ProxyReply, Contact, RL.Step, HttpRequest.Header;
    match TakeIn(w, keep) {
      case Taken(req) =>
        var token := Bearer(req.Header("authorization"));
        OkMeansNoError(w.env, token, w.cfg.jwtSecret, w.cfg.jwtIssuer, w.now, w.later, w.order);
        var route := MatchRoute(req.verb, req.target, w.cfg);
        if route.Api? && route.upstreamBase != "" && ParseUpstream(route.upstreamBase).Ok? {
          var addr := ParseUpstream(route.upstreamBase).value;
          var (auth, error) := Outcome(w.env, token, w.cfg.jwtSecret, w.cfg.jwtIssuer, w.now, w.later, w.order);
          if UpstreamCalled(host, port, wire) in Serve(w, keep, limiter).effects {
            assert Passes(w, keep, limiter, req, route, auth, addr);
          }
        }
      case _ =>
    }
  }

  /** What an upstream makes of the bytes it gets: the client's method, path, query and body, and in the
      header table the length of that body, the other seven names as far as they apply, and the caller's
      identity -- if the headers can carry it -- but not the caller's credentials. A value over the
      parser's limit makes it refuse the head. */
  ghost predicate UpstreamReads(wire: string, addr: UpstreamAddr, req: HttpRequest, fp: string, auth: AuthInfo) {
    var rows := UpstreamRows(addr.host, req, auth);
    var headers := Table(rows);
    && Find(wire, BLANK_LINE, 0).Some?
    && var e := Find(wire, BLANK_LINE, 0).value;
    && e + 4 <= |wire| && wire[e + 4..] == req.body
    && "authorization" !in headers
    && HeadersSay(headers, addr.host, req.Header("content-type"), |wire[e + 4..]|, req.clientIp, auth)
    && (IdentitySeen(headers) == auth.(ok := true) <==> Portable(auth))
    && ParseRequest(wire[..e + 2]) ==
       (if RowsFit(rows)
        then Some(HttpRequest(req.verb, addr.prefix + fp, addr.prefix + PathOf(fp), QueryOf(fp), "HTTP/1.1",
                              headers, "", ""))
        else None)
  }

  lemma WireReads(w: World, keep: nat, req: HttpRequest, route: RouteResult, addr: UpstreamAddr, auth: AuthInfo)
    requires keep <= 4 && TakeIn(w, keep) == Taken(req)
    requires MatchRoute(req.verb, req.target, w.cfg) == route && route.Api?
    requires PlainPrefix(addr.prefix)
    ensures UpstreamReads(UpstreamWire(addr, req, route.forwardPath, auth), addr, req, route.forwardPath, auth)
  {
    hide TakeIn, MatchRoute, UpstreamWire, Table, UpstreamRows, RowsFit, ParseRequest, Find, PathOf, QueryOf,
         IdentitySeen, Portable, HeadersSay;
    TakenIsAcceptable(w, keep);
    RoutedPathForwardable(req.verb, req.target, w.cfg);
    UpstreamRoundTrip(addr, req, route.forwardPath, auth);
    AuthorizationStays(addr.host, req, auth);
    IdentitySurvivesIff(addr.host, req, auth);
    HeadersWritten(addr.host, req, auth);
  }

  /** A token that proves the identity: genuine, in its time window, from the required issuer. */
  ghost predicate Proves(w: World, token: string, auth: AuthInfo) {
    exists h, p, s, header, payload ::
      && Genuine(w.env, token, w.cfg.jwtSecret, h, p, s, header, payload)
      && InTime(payload, w.now, w.later) && IssuedBy(payload, w.cfg.jwtIssuer) && auth == Identity(payload)
  }

  lemma AcceptedProves(w: World, token: string, auth: AuthInfo)
    requires TableOrder(w.order)
    requires Outcome(w.env, token, w.cfg.jwtSecret, w.cfg.jwtIssuer, w.now, w.later, w.order) == (auth, NoError)
    ensures Proves(w, token, auth)
  {
    hide Outcome, Genuine, InTime, IssuedBy, Identity;
    AcceptedIff(w.env, token, w.cfg.jwtSecret, w.cfg.jwtIssuer, w.now, w.later, w.order, auth);
  }

  lemma PassingMeans(w: World, keep: nat, limiter: RL.State,
                     req: HttpRequest, route: RouteResult, auth: AuthInfo, addr: UpstreamAddr)
    requires keep <= 4 && TableOrder(w.order) && Passes(w, keep, limiter, req, route, auth, addr)
    ensures route.Api? && Proves(w, Bearer(req.Header("authorization")), auth)
    ensures req.target == "/api/" + route.area + route.forwardPath
            || (route.forwardPath != "" && req.target == "/api/" + route.area + route.forwardPath[1..])
    ensures PlainPrefix(addr.prefix) ==>
              UpstreamReads(UpstreamWire(addr, req, route.forwardPath, auth), addr, req, route.forwardPath, auth)
  {
    hide TakeIn, Outcome, HasScope, Bearer, MatchRoute, ParseUpstream, UpstreamWire, RL.Step, Proves, UpstreamReads,
         HttpRequest.Header, PlainPrefix;
    AcceptedProves(w, Bearer(req.Header("authorization")), auth);
    ForwardedPathRecoversTarget(req.verb, req.target, w.cfg);
    if PlainPrefix(addr.prefix) {
      WireReads(w, keep, req, route, addr, auth);
    }
  }

  /** End to end: whatever reaches an upstream is a complete request of the client's byte stream, whose
      token proves an identity that has the scope, for the target the client named, and the upstream
      reads it as such. */
  lemma UpstreamSeesAuthorizedRequest(w: World, keep: nat, limiter: RL.State, host: string, port: int, wire: string)
    returns (req: HttpRequest, route: RouteResult, auth: AuthInfo, addr: UpstreamAddr, e: nat, head: HttpRequest)
    requires keep <= 4 && TableOrder(w.order)
    requires UpstreamCalled(host, port, wire) in Serve(w, keep, limiter).effects
    ensures RequestIn(w, keep, Flat(w.script), e, head) && req == Complete(w, head, Flat(w.script), e)
    ensures Passes(w, keep, limiter, req, route, auth, addr) && host == addr.host && port == addr.port
    ensures Proves(w, Bearer(req.Header("authorization")), auth)
    ensures req.target == "/api/" + route.area + route.forwardPath
            || (route.forwardPath != "" && req.target == "/api/" + route.area + route.forwardPath[1..])
    ensures PlainPrefix(addr.prefix) ==> UpstreamReads(wire, addr, req, route.forwardPath, auth)
  {
    hide TakeIn, Outcome, HasScope, MatchRoute, ParseUpstream, RL.Step, Bearer, UpstreamWire, Serve, Proves,
         UpstreamReads, HttpRequest.Header, PlainPrefix, RequestIn, Complete;
    UpstreamCalledIff(w, keep, limiter, host, port, wire);
    req, route, auth, addr :|
      && Passes(w, keep, limiter, req, route, auth, addr)
      && host == addr.host && port == addr.port && w.connect(host, port).Connected?
      && wire == UpstreamWire(addr, req, route.forwardPath, auth);
    e, head := TakenIsInStream(w, keep);
    PassingMeans(w, keep, limiter, req, route, auth, addr);
  }

  /** A passing request's whole run. */
  lemma PassingRun(w: World, keep: nat, limiter: RL.State,
                   req: HttpRequest, route: RouteResult, auth: AuthInfo, addr: UpstreamAddr)
    requires keep <= 4 && Passes(w, keep, limiter, req, route, auth, addr)
    ensures Serve(w, keep, limiter).effects == [LimiterAsked(true)] + Forward(w, req, route, auth)
  {
    hide TakeIn, Outcome, HasScope, Bearer, MatchRoute, ParseUpstream, UpstreamWire, RL.Step, Forward, ErrorResponse,
         Finish, HttpRequest.Header;
    var token := Bearer(req.Header("authorization"));
    OkMeansNoError(w.env, token, w.cfg.jwtSecret, w.cfg.jwtIssuer, w.now, w.later, w.order);
  }

  /** For a request that passes every gate, what the client reads follows from what the network did and from
      the upstream's bytes: the gateway's own error exactly when they fail to be an answer, in one of the ways
      listed, and otherwise what they say. */
  lemma UpstreamIsSeen(w: World, keep: nat, limiter: RL.State,
                       req: HttpRequest, route: RouteResult, auth: AuthInfo, addr: UpstreamAddr)
    requires keep <= 4 && Passes(w, keep, limiter, req, route, auth, addr)
    ensures var wire := UpstreamWire(addr, req, route.forwardPath, auth);
            UpstreamSeen(w.connect(addr.host, addr.port), w.net(addr.host, addr.port, wire),
                         Serve(w, keep, limiter).effects)
  {
    hide TakeIn, Outcome, HasScope, Bearer, MatchRoute, ParseUpstream, UpstreamWire, RL.Step, Forward, Serve,
         UpstreamSeen, HttpRequest.Header;
    var wire := UpstreamWire(addr, req, route.forwardPath, auth);
    PassingRun(w, keep, limiter, req, route, auth, addr);
    ForwardIsSeen(w, req, route, auth);
    UpstreamSeenAfter(w.connect(addr.host, addr.port), w.net(addr.host, addr.port, wire),
                      [LimiterAsked(true)], Forward(w, req, route, auth));
  }

  /** The upstream's answer reaches the client as it is: for a request that passes every gate and an
      upstream that answers in under 4 MiB with a response the gateway can read, the run is exactly this,
      and reading the reply gives the status, content type and body that reading the answer gave. */
  lemma AnswerIsRelayed(w: World, keep: nat, limiter: RL.State, req: HttpRequest, route: RouteResult, auth: AuthInfo,
                        addr: UpstreamAddr, chunks: Script, x: Relayed)
    requires keep <= 4 && Passes(w, keep, limiter, req, route, auth, addr)
    requires w.connect(addr.host, addr.port).Connected?
    requires w.net(addr.host, addr.port, UpstreamWire(addr, req, route.forwardPath, auth)) == Exchange(chunks, false)
    requires |Flat(chunks)| < 4 * 1024 * 1024 && AnswerIs(Flat(chunks), x)
    ensures Serve(w, keep, limiter).effects ==
            [LimiterAsked(true),
             UpstreamCalled(addr.host, addr.port, UpstreamWire(addr, req, route.forwardPath, auth)),
             Replied(ResponseWire(Answer(x))), Closed]
    ensures AnswerIs(ResponseWire(Answer(x)), x)
  {
    hide AnswerIs, Serve, TakeIn, Outcome, HasScope, Bearer, MatchRoute, ParseUpstream, UpstreamWire, RL.Step, ReadAll,
         ReadResponse, ResponseWire, HttpRequest.Header, Flat;
    PassingRun(w, keep, limiter, req, route, auth, addr);
    assert "" + Flat(chunks) == Flat(chunks);
    ReadAllIgnoresChunking("", chunks);
    ReadResponseIs(Flat(chunks), x);
    RelayIsFaithful(Flat(chunks));
    ReadResponseIs(ResponseWire(Answer(x)), x);
  }

  lemma PassesToApi(w: World, keep: nat, limiter: RL.State,
                    req: HttpRequest, route: RouteResult, auth: AuthInfo, addr: UpstreamAddr)
    requires keep <= 4 && Passes(w, keep, limiter, req, route, auth, addr)
    ensures route.Api?
  {
    hide TakeIn, Outcome, HasScope, MatchRoute, ParseUpstream, RL.Step, Bearer, HttpRequest.Header;
  }

  /** When a request passes every gate, the client reads 504 exactly when the connection timed out, or the
      upstream itself answers 504; when recv times out on the answer, it reads 502. */
  lemma TimeoutSeenIff(w: World, keep: nat, limiter: RL.State,
                       req: HttpRequest, route: RouteResult, auth: AuthInfo, addr: UpstreamAddr)
    requires keep <= 4 && Passes(w, keep, limiter, req, route, auth, addr)
    ensures var effects := Serve(w, keep, limiter).effects;
            var connection := w.connect(addr.host, addr.port);
            var answer := w.net(addr.host, addr.port, UpstreamWire(addr, req, route.forwardPath, auth));
            && (EndsWith(effects, 504) <==>
                || connection.ConnectTimedOut?
                || (connection.Connected? && Failure(answer).None?
                    && exists x :: AnswerIs(Flat(answer.chunks), x) && x.status == 504))
            && (connection.Connected? && answer.Exchange? && answer.failed ==> EndsWith(effects, 502))
  {
    hide Serve, Passes, UpstreamWire, AnswerIs, HasStatus, Flat, Find, Reads, ReadErrorBody;
    PassesToApi(w, keep, limiter, req, route, auth, addr);
    UpstreamIsSeen(w, keep, limiter, req, route, auth, addr);
    var effects := Serve(w, keep, limiter).effects;
    forall x, y | Reads(effects, x) && Reads(effects, y) ensures x == y { OneReading(effects, x, y); }
    var answer := w.net(addr.host, addr.port, UpstreamWire(addr, req, route.forwardPath, auth));
    if answer.Exchange? {
      forall x, y | AnswerIs(Flat(answer.chunks), x) && AnswerIs(Flat(answer.chunks), y) ensures x == y {
        ReadResponseIs(Flat(answer.chunks), x);
        ReadResponseIs(Flat(answer.chunks), y);
      }
    }
  }

  // --------------------------------------------------- what the client sees

  /** A bearer token is what stands between blanks after the scheme. */
  lemma BearerIs(header: string, token: string)
    requires token != ""
    ensures Bearer(header) == token <==>
            exists l, r :: AllBlank(l) && AllBlank(r) && Trimmed(token) && header == "Bearer " + (l + token + r)
  {
    hide Trim;
    if Bearer(header) == token {
      var l, r := TrimSplit(header[7..]);
      assert header == "Bearer " + (l + token + r);
    }
    forall l, r | AllBlank(l) && AllBlank(r) && Trimmed(token) && header == "Bearer " + (l + token + r)
      ensures Bearer(header) == token
    {
      TrimIs(l, token, r);
      assert header[7..] == l + token + r;
    }
  }

  /** Reply by reply: what the client reads is told by the route, and for an area by the token, the scope
      and the upstream. */
  ghost predicate ReplyExplained(w: World, req: HttpRequest, effects: seq<Effect>) {
    match MatchRoute(req.verb, req.target, w.cfg)
    case Health => Reads(effects, Relayed(200, "application/json", HealthText(w.cfg)))
    case NotFound => ReadsError(effects, 404, "not_found", "Unknown path.")
    case MethodNotAllowed => ReadsError(effects, 405, "method_not_allowed", "Use GET/POST/PUT/PATCH/DELETE.")
    case Api(area, base, path, scope) => ApiExplained(w, req, Api(area, base, path, scope), effects)
  }

  ghost predicate ApiExplained(w: World, req: HttpRequest, route: RouteResult, effects: seq<Effect>)
    requires route.Api?
  {
    var token := Bearer(req.Header("authorization"));
    if token == "" || |token| > 8192 then ReadsError(effects, 401, "unauthorized", "Missing bearer token.")
    else if w.cfg.jwtSecret == "" then ReadsError(effects, 401, "unauthorized", "JWT_SECRET is not set, fail closed.")
    else if !exists auth :: Proves(w, token, auth) then
      ReadsError(effects, 401, "unauthorized", Reason(w, ReportOn(w, token)))
    else exists auth :: Proves(w, token, auth) && IdentityExplained(w, req, route, auth, effects)
  }

  ghost predicate IdentityExplained(w: World, req: HttpRequest, route: RouteResult, auth: AuthInfo,
                                    effects: seq<Effect>)
    requires route.Api?
  {
    if !HasScope(auth, route.area, route.requiredScope) then
      ReadsError(effects, 403, "forbidden", "Missing required scope: " + route.requiredScope)
    else ForwardSeen(w, req, route, auth, effects)
  }

  /** The error verifyJwt reports on a token. */
  ghost function ReportOn(w: World, token: string): AuthError {
    Outcome(w.env, token, w.cfg.jwtSecret, w.cfg.jwtIssuer, w.now, w.later, w.order).1
  }

  lemma ProvesIff(w: World, token: string, auth: AuthInfo)
    requires TableOrder(w.order) && w.cfg.jwtSecret != ""
    ensures Proves(w, token, auth) <==>
            Outcome(w.env, token, w.cfg.jwtSecret, w.cfg.jwtIssuer, w.now, w.later, w.order) == (auth, NoError)
  {
    hide Outcome, InTime, IssuedBy, Identity, DecodePart, ParseClaims;
    AcceptedIff(w.env, token, w.cfg.jwtSecret, w.cfg.jwtIssuer, w.now, w.later, w.order, auth);
  }

  /** What the client reads in reply to a well-formed, completely read request: 429 exactly when the limiter
      refuses it, and otherwise what the gates explain. */
  lemma ClientSeesReply(w: World, keep: nat, limiter: RL.State, req: HttpRequest)
    requires keep <= 4 && TableOrder(w.order)
    requires TakeIn(w, keep) == Taken(req)
    ensures var effects := Serve(w, keep, limiter).effects;
            if RL.Step(true, limiter, w.clientIp, w.seconds).1 then ReplyExplained(w, req, effects)
            else ReadsError(effects, 429, "rate_limited", "Too many requests, slow down.")
  {
    hide TakeIn, RL.Step, Dispatch, ErrorResponse, Finish, ReplyExplained, ReadsError;
    if RL.Step(true, limiter, w.clientIp, w.seconds).1 {
      DispatchSeen(w, req);
      ExplainedAfter(w, req, [LimiterAsked(true)], Dispatch(w, req));
    } else {
      ErrorReads([LimiterAsked(false)], 429, "rate_limited", "Too many requests, slow down.");
    }
  }

  lemma ExplainedAfter(w: World, req: HttpRequest, before: seq<Effect>, effects: seq<Effect>)
    requires ReplyExplained(w, req, effects)
    ensures ReplyExplained(w, req, before + effects)
  {
    hide Reads, ReadsError, ApiExplained, MatchRoute, HealthText;
    match MatchRoute(req.verb, req.target, w.cfg) {
      case Health => ReadsAfter(before, effects, Relayed(200, "application/json", HealthText(w.cfg)));
      case NotFound => ReadsErrorAfter(before, effects, 404, "not_found", "Unknown path.");
      case MethodNotAllowed =>
        ReadsErrorAfter(before, effects, 405, "method_not_allowed", "Use GET/POST/PUT/PATCH/DELETE.");
      case Api(area, base, path, scope) => ApiExplainedAfter(w, req, Api(area, base, path, scope), before, effects);
    }
  }

  lemma ApiExplainedAfter(w: World, req: HttpRequest, route: RouteResult, before: seq<Effect>, effects: seq<Effect>)
    requires route.Api? && ApiExplained(w, req, route, effects)
    ensures ApiExplained(w, req, route, before + effects)
  {
    hide ReadsError, Proves, Bearer, HttpRequest.Header, Reason, ReportOn, HasScope, ForwardSeen;
    var token := Bearer(req.Header("authorization"));
    if token == "" || |token| > 8192 {
      ReadsErrorAfter(before, effects, 401, "unauthorized", "Missing bearer token.");
    } else if w.cfg.jwtSecret == "" {
      ReadsErrorAfter(before, effects, 401, "unauthorized", "JWT_SECRET is not set, fail closed.");
    } else if !exists auth :: Proves(w, token, auth) {
      ReadsErrorAfter(before, effects, 401, "unauthorized", Reason(w, ReportOn(w, token)));
    } else {
      var auth :| Proves(w, token, auth) && IdentityExplained(w, req, route, auth, effects);
      if HasScope(auth, route.area, route.requiredScope) {
        ForwardSeenAfter(w, req, route, auth, before, effects);
      } else {
        ReadsErrorAfter(before, effects, 403, "forbidden", "Missing required scope: " + route.requiredScope);
      }
      assert IdentityExplained(w, req, route, auth, before + effects);
    }
  }

  lemma DispatchSeen(w: World, req: HttpRequest)
    requires TableOrder(w.order)
    ensures ReplyExplained(w, req, Dispatch(w, req))
  {
    hide Reads, ReadsError, ErrorResponse, Finish, Authorize, MatchRoute, Proves, HealthResponse, HasScope, Bearer,
         ForwardSeen, HealthText, Reason, ReportOn, HttpRequest.Header, ApiExplained;
    assert forall r :: [] + Finish(r) == Finish(r);
    match MatchRoute(req.verb, req.target, w.cfg) {
      case Health => HealthReads(w.cfg, []);
      case NotFound => ErrorReads([], 404, "not_found", "Unknown path.");
      case MethodNotAllowed => ErrorReads([], 405, "method_not_allowed", "Use GET/POST/PUT/PATCH/DELETE.");
      case Api(area, base, path, scope) => AuthorizeSeen(w, req, Api(area, base, path, scope));
    }
  }

  lemma AuthorizeSeen(w: World, req: HttpRequest, route: RouteResult)
    requires TableOrder(w.order) && route.Api?
    ensures ApiExplained(w, req, route, Authorize(w, req, route))
  {
    hide Reads, ReadsError, ErrorResponse, Finish, Forward, Proves, HasScope, Bearer, Outcome, ForwardSeen, Reason,
         HttpRequest.Header;
    assert forall r :: [] + Finish(r) == Finish(r);
    var token := Bearer(req.Header("authorization"));
    var (auth, error) := Outcome(w.env, token, w.cfg.jwtSecret, w.cfg.jwtIssuer, w.now, w.later, w.order);
    OkMeansNoError(w.env, token, w.cfg.jwtSecret, w.cfg.jwtIssuer, w.now, w.later, w.order);
    if token == "" || |token| > MAX_TOKEN {
      ErrorReads([], 401, "unauthorized", "Missing bearer token.");
    } else if w.cfg.jwtSecret == "" {
      NoSecretFails(w, token);
      ErrorReads([], 401, "unauthorized", "JWT_SECRET is not set, fail closed.");
    } else {
      forall a ensures Proves(w, token, a) <==> a == auth && error == NoError { ProvesIff(w, token, a); }
      if !auth.ok {
        ErrorReads([], 401, "unauthorized", Reason(w, error));
      } else if !HasScope(auth, route.area, route.requiredScope) {
        ErrorReads([], 403, "forbidden", "Missing required scope: " + route.requiredScope);
        assert Proves(w, token, auth) && IdentityExplained(w, req, route, auth, Authorize(w, req, route));
      } else {
        ForwardIsSeen(w, req, route, auth);
        assert Proves(w, token, auth) && IdentityExplained(w, req, route, auth, Authorize(w, req, route));
      }
    }
  }

  lemma NoSecretFails(w: World, token: string)
    requires w.cfg.jwtSecret == "" && token != ""
    ensures Outcome(w.env, token, w.cfg.jwtSecret, w.cfg.jwtIssuer, w.now, w.later, w.order) == (DENIED, NoSecret)
    ensures Reason(w, NoSecret) == "JWT_SECRET is not set, fail closed."
  {
    hide DecodeToken, Verify;
  }
}
