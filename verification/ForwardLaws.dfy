/** When a client's request is forwarded, from the bytes it prints to the bytes the upstream gets. */
module ForwardLaws {
  import opened Wrappers
  import opened Text
  import opened Http
  import opened Auth
  import opened Jwt
  import opened CheckToken
  import opened TokenLaws
  import opened Proxy
  import opened Router
  import opened HandleClient
  import opened IntakeLaws
  import opened ReplyLaws
  import opened HandleClientLaws
  import RL = RateLimiter

  /** A printed request for an area that carries a signed token. */
  ghost predicate SignedRequest(w: World, req: HttpRequest, fields: seq<Field>, body: string,
                                area: string, suffix: string, header: Claims, payload: Claims)
  {
    && TableOrder(w.order) && PrintedAs(w.script, req, fields, body)
    && IsApiArea(area) && AfterArea(suffix) && req.target == "/api/" + area + suffix
    && SignedToken(w.env, header, payload, w.cfg.jwtSecret).Some?
    && ReadsBack(w.env, SignedHeader(header)) && ReadsBack(w.env, payload)
    && req.Header("authorization") == "Bearer " + SignedToken(w.env, header, payload, w.cfg.jwtSecret).value
  }

  /** Its claims allow what it asks for. */
  ghost predicate Entitled(w: World, verb: string, area: string, header: Claims, payload: Claims) {
    && w.cfg.jwtSecret != "" && ("alg" in header ==> header["alg"] == Str("HS256"))
    && InTime(payload, w.now, w.later) && IssuedBy(payload, w.cfg.jwtIssuer)
    && HasScope(Identity(payload), area, RequiredScope(verb, area))
  }

  /** Nothing but its claims stands in its way: encoding, lengths, limiter, method, configured address. */
  ghost predicate Unhindered(w: World, limiter: RL.State, req: HttpRequest, body: string, area: string, token: string,
                             addr: UpstreamAddr)
  {
    && PrintedIntake(w, req, body).Taken? && |token| <= 8192
    && RL.Step(true, limiter, w.clientIp, w.seconds).1
    && IsAllowedMethod(req.verb)
    && w.cfg.UpstreamFor(area) != "" && ParseUpstream(w.cfg.UpstreamFor(area)) == Ok(addr)
  }

  /** The request as the gateway forwards it. */
  function Sent(w: World, req: HttpRequest, body: string): HttpRequest {
    req.(body := body, clientIp := w.clientIp)
  }

  function RouteFor(w: World, verb: string, area: string, suffix: string): RouteResult {
    Api(area, w.cfg.UpstreamFor(area), Forwarded(suffix), RequiredScope(verb, area))
  }

  lemma TokenInHeader(token: string)
    requires IsWord(token)
    ensures Bearer("Bearer " + token) == token && token != ""
  {
    assert ("Bearer " + token)[7..] == token;
    assert !IsBlank(token[0]) && !IsBlank(token[|token| - 1]);
    TrimPadded(token);
  }

  /** Which gates a signed request passes. */
  lemma SignedRequestPassesIff(w: World, limiter: RL.State, req: HttpRequest, fields: seq<Field>, body: string,
                               area: string, suffix: string, header: Claims, payload: Claims,
                               q: HttpRequest, route: RouteResult, auth: AuthInfo, addr: UpstreamAddr)
    requires SignedRequest(w, req, fields, body, area, suffix, header, payload)
    ensures Passes(w, AS_DOCUMENTED, limiter, q, route, auth, addr) <==>
            && Unhindered(w, limiter, req, body, area, SignedToken(w.env, header, payload, w.cfg.jwtSecret).value, addr)
            && Entitled(w, req.verb, area, header, payload)
            && q == Sent(w, req, body) && route == RouteFor(w, req.verb, area, suffix) && auth == Identity(payload)
  {
    hide TakeIn, PrintedAs, MatchRoute, IsApiArea, AfterArea, SignedToken, ReadsBack, Outcome, InTime, IssuedBy,
         HasScope, RequiredScope, Config.UpstreamFor, ParseUpstream, RL.Step, IsAllowedMethod, Forwarded, Bearer,
         Identity, IsWord;
    var token := SignedToken(w.env, header, payload, w.cfg.jwtSecret).value;
    PrintedRequestIsTaken(w, req, fields, body);
    RouteOfArea(req.verb, area, suffix, w.cfg);
    TokenIsWord(w.env, header, payload, w.cfg.jwtSecret);
    TokenInHeader(token);
    SignThenVerify(w.env, header, payload, w.cfg.jwtSecret, w.cfg.jwtIssuer, w.now, w.later, w.order);
    assert Sent(w, req, body).Header("authorization") == req.Header("authorization");
  }

  /** A signed request reaches its upstream, as the request it is and with the identity in its token,
      exactly when nothing hinders it, its claims entitle it and the upstream accepts the connection. */
  lemma SignedRequestForwardedIff(w: World, limiter: RL.State, req: HttpRequest, fields: seq<Field>, body: string,
                                  area: string, suffix: string, header: Claims, payload: Claims,
                                  host: string, port: int, wire: string)
    requires SignedRequest(w, req, fields, body, area, suffix, header, payload)
    ensures UpstreamCalled(host, port, wire) in Serve(w, AS_DOCUMENTED, limiter).effects <==>
            && Entitled(w, req.verb, area, header, payload)
            && exists addr ::
                 && Unhindered(w, limiter, req, body, area,
                               SignedToken(w.env, header, payload, w.cfg.jwtSecret).value, addr)
                 && host == addr.host && port == addr.port && w.connect(host, port).Connected?
                 && wire == UpstreamWire(addr, Sent(w, req, body), Forwarded(suffix), Identity(payload))
  {
    hide Serve, Passes, PrintedAs, ReadsBack, IsApiArea, AfterArea, Unhindered, Entitled, UpstreamWire, Identity,
         Forwarded, RequiredScope, Config.UpstreamFor, Sent, SignedToken, HttpRequest.Header;
    var token := SignedToken(w.env, header, payload, w.cfg.jwtSecret).value;
    UpstreamCalledIff(w, AS_DOCUMENTED, limiter, host, port, wire);
    forall q, route, auth, addr
      ensures Passes(w, AS_DOCUMENTED, limiter, q, route, auth, addr) <==>
              && Unhindered(w, limiter, req, body, area, token, addr) && Entitled(w, req.verb, area, header, payload)
              && q == Sent(w, req, body) && route == RouteFor(w, req.verb, area, suffix) && auth == Identity(payload)
    {
      SignedRequestPassesIff(w, limiter, req, fields, body, area, suffix, header, payload, q, route, auth, addr);
    }
    forall addr | Unhindered(w, limiter, req, body, area, token, addr) && Entitled(w, req.verb, area, header, payload)
      ensures Passes(w, AS_DOCUMENTED, limiter, Sent(w, req, body), RouteFor(w, req.verb, area, suffix),
                     Identity(payload), addr)
    {
    }
  }

  // ------------------------------------------------------------------ refusals

  /** A signed request for an area that gets as far as its token: it can be taken in, the limiter has room,
      the method is one of the five, and the token is not over its limit. */
  ghost predicate ReachesToken(w: World, limiter: RL.State, req: HttpRequest, body: string, token: string) {
    && PrintedIntake(w, req, body).Taken? && |token| <= 8192 && w.cfg.jwtSecret != ""
    && RL.Step(true, limiter, w.clientIp, w.seconds).1
    && req.verb in {"GET", "POST", "PUT", "PATCH", "DELETE"}
  }

  /** The scope a method needs. */
  function NeededScope(verb: string, area: string): string {
    if verb == "GET" then area + ":read" else area + ":write"
  }

  lemma NeededIsRequired(verb: string, area: string)
    requires verb in {"GET", "POST", "PUT", "PATCH", "DELETE"}
    ensures NeededScope(verb, area) == RequiredScope(verb, area) && IsAllowedMethod(verb)
  {
  }

  lemma SignedIsGenuine(w: World, header: Claims, payload: Claims) returns (h: string, p: string, s: string)
    requires SignedToken(w.env, header, payload, w.cfg.jwtSecret).Some?
    requires ReadsBack(w.env, SignedHeader(header)) && ReadsBack(w.env, payload)
    requires "alg" in header ==> header["alg"] == Str("HS256")
    ensures Genuine(w.env, SignedToken(w.env, header, payload, w.cfg.jwtSecret).value, w.cfg.jwtSecret, h, p, s,
                    SignedHeader(header), payload)
  {
    hide DecodePart, ParseClaims, SplitToken, SigningInput, SignedToken, ReadsBack;
    var token := SignedToken(w.env, header, payload, w.cfg.jwtSecret).value;
    SignedTokenDecodes(w.env, header, payload, w.cfg.jwtSecret);
    var jwt := DecodeToken(w.env, token).value;
    h, p, s := SplitToken(token).value.0, SplitToken(token).value.1, SplitToken(token).value.2;
    SplitTokenIs(token, h, p, s);
  }

  /** A printed request for an area with whatever bearer token. */
  ghost predicate BearerRequest(w: World, req: HttpRequest, fields: seq<Field>, body: string, area: string,
                                suffix: string, token: string)
  {
    && TableOrder(w.order) && PrintedAs(w.script, req, fields, body)
    && IsApiArea(area) && AfterArea(suffix) && req.target == "/api/" + area + suffix
    && Solid(token) && req.Header("authorization") == "Bearer " + token
  }

  /** What its client reads when the token is refused: 401, with the reason verifyJwt reports in words. */
  lemma RefusedTokenReads(w: World, limiter: RL.State, req: HttpRequest, fields: seq<Field>, body: string,
                          area: string, suffix: string, token: string)
    requires BearerRequest(w, req, fields, body, area, suffix, token) && ReachesToken(w, limiter, req, body, token)
    ensures var effects := Serve(w, AS_DOCUMENTED, limiter).effects;
            match ReportOn(w, token)
            case VerificationFailed(e) => ReadsError(effects, 401, "unauthorized", "verification failed: " + w.what(e))
            case DecodeError(e) => ReadsError(effects, 401, "unauthorized", "decode error: " + w.what(e))
            case TokenExpired => ReadsError(effects, 401, "unauthorized", "token expired")
            case IssuerMismatch => ReadsError(effects, 401, "unauthorized", "issuer mismatch")
            case _ => true
  {
    hide TakeIn, PrintedAs, MatchRoute, IsApiArea, AfterArea, RequiredScope, Config.UpstreamFor, RL.Step,
         IsAllowedMethod, Forwarded, Bearer, IsWord, Solid, Serve, ReadsError, IdentityExplained, Outcome, Proves;
    PrintedRequestIsTaken(w, req, fields, body);
    RouteOfArea(req.verb, area, suffix, w.cfg);
    NeededIsRequired(req.verb, area);
    SolidIsWord(token);
    TokenInHeader(token);
    assert Sent(w, req, body).Header("authorization") == req.Header("authorization");
    forall auth ensures Proves(w, token, auth) ==> ReportOn(w, token) == NoError {
      ProvesIff(w, token, auth);
    }
    ClientSeesReply(w, AS_DOCUMENTED, limiter, Sent(w, req, body));
  }

  /** What it reads when the token proves an identity that lacks the scope: 403, naming the scope. */
  lemma MissingScopeReads(w: World, limiter: RL.State, req: HttpRequest, fields: seq<Field>, body: string,
                          area: string, suffix: string, token: string, auth: AuthInfo)
    requires BearerRequest(w, req, fields, body, area, suffix, token) && ReachesToken(w, limiter, req, body, token)
    requires Proves(w, token, auth) && !HasScope(auth, area, NeededScope(req.verb, area))
    ensures ReadsError(Serve(w, AS_DOCUMENTED, limiter).effects, 403, "forbidden",
                       "Missing required scope: " + NeededScope(req.verb, area))
  {
    hide TakeIn, PrintedAs, MatchRoute, IsApiArea, AfterArea, HasScope, RequiredScope, NeededScope, Config.UpstreamFor,
         RL.Step, IsAllowedMethod, Forwarded, Bearer, IsWord, Solid, Serve, ReadsError, ForwardSeen, Outcome, Proves;
    PrintedRequestIsTaken(w, req, fields, body);
    RouteOfArea(req.verb, area, suffix, w.cfg);
    NeededIsRequired(req.verb, area);
    SolidIsWord(token);
    TokenInHeader(token);
    assert Sent(w, req, body).Header("authorization") == req.Header("authorization");
    ProvesIff(w, token, auth);
    forall a ensures Proves(w, token, a) ==> a == auth {
      ProvesIff(w, token, a);
    }
    ClientSeesReply(w, AS_DOCUMENTED, limiter, Sent(w, req, body));
  }

  lemma SignedIsBearer(w: World, req: HttpRequest, fields: seq<Field>, body: string, area: string, suffix: string,
                       header: Claims, payload: Claims)
    requires SignedRequest(w, req, fields, body, area, suffix, header, payload)
    ensures BearerRequest(w, req, fields, body, area, suffix,
                          SignedToken(w.env, header, payload, w.cfg.jwtSecret).value)
  {
    hide PrintedAs, IsApiArea, AfterArea, SignedToken, ReadsBack, HttpRequest.Header, IsWord, Solid;
    TokenIsWord(w.env, header, payload, w.cfg.jwtSecret);
    SolidIsWord(SignedToken(w.env, header, payload, w.cfg.jwtSecret).value);
  }

  /** What the client of a signed request reads when its token does not do: 401 with the reason, or 403
      naming the scope it needs. */
  lemma SignedRequestRefused(w: World, limiter: RL.State, req: HttpRequest, fields: seq<Field>, body: string,
                             area: string, suffix: string, header: Claims, payload: Claims)
    requires SignedRequest(w, req, fields, body, area, suffix, header, payload)
    requires ReachesToken(w, limiter, req, body, SignedToken(w.env, header, payload, w.cfg.jwtSecret).value)
    requires "alg" in header ==> header["alg"] == Str("HS256")
    ensures var effects := Serve(w, AS_DOCUMENTED, limiter).effects;
            && (!InTime(payload, w.now, w.now) && DatesAreIntegers(payload) ==>
                  ReadsError(effects, 401, "unauthorized", "verification failed: " + w.what(Expired)))
            && (InTime(payload, w.now, w.now) && !InTime(payload, w.now, w.later) ==>
                  ReadsError(effects, 401, "unauthorized", "token expired"))
            && (InTime(payload, w.now, w.later) && !IssuedBy(payload, w.cfg.jwtIssuer) ==>
                  ReadsError(effects, 401, "unauthorized", "issuer mismatch"))
            && (InTime(payload, w.now, w.later) && IssuedBy(payload, w.cfg.jwtIssuer)
                && !HasScope(Identity(payload), area, NeededScope(req.verb, area)) ==>
                  ReadsError(effects, 403, "forbidden", "Missing required scope: " + NeededScope(req.verb, area)))
  {
    hide SignedRequest, BearerRequest, ReachesToken, SignedToken, ReadsBack, Genuine, InTime, IssuedBy, HasScope,
         NeededScope, Identity, Serve, ReadsError, Outcome, DatesAreIntegers, Proves;
    SignedIsReal(w, req, fields, body, area, suffix, header, payload);
    ReachesWithSecret(w, limiter, req, body, SignedToken(w.env, header, payload, w.cfg.jwtSecret).value);
    var token := SignedToken(w.env, header, payload, w.cfg.jwtSecret).value;
    SignedIsBearer(w, req, fields, body, area, suffix, header, payload);
    var h, p, s := SignedIsGenuine(w, header, payload);
    ReportOfGenuine(w.env, token, w.cfg.jwtSecret, w.cfg.jwtIssuer, w.now, w.later, w.order, h, p, s,
                    SignedHeader(header), payload);
    RefusedTokenReads(w, limiter, req, fields, body, area, suffix, token);
    SignThenVerify(w.env, header, payload, w.cfg.jwtSecret, w.cfg.jwtIssuer, w.now, w.later, w.order);
    ProvesIff(w, token, Identity(payload));
    if Proves(w, token, Identity(payload)) && !HasScope(Identity(payload), area, NeededScope(req.verb, area)) {
      MissingScopeReads(w, limiter, req, fields, body, area, suffix, token, Identity(payload));
    }
  }

  lemma SignedIsReal(w: World, req: HttpRequest, fields: seq<Field>, body: string, area: string, suffix: string,
                     header: Claims, payload: Claims)
    requires SignedRequest(w, req, fields, body, area, suffix, header, payload)
    ensures TableOrder(w.order) && SignedToken(w.env, header, payload, w.cfg.jwtSecret).Some?
    ensures ReadsBack(w.env, SignedHeader(header)) && ReadsBack(w.env, payload)
    ensures SignedToken(w.env, header, payload, w.cfg.jwtSecret).value != ""
  {
    hide PrintedAs, IsApiArea, AfterArea, SignedToken, ReadsBack, HttpRequest.Header;
    TokenIsWord(w.env, header, payload, w.cfg.jwtSecret);
  }

  lemma ReachesWithSecret(w: World, limiter: RL.State, req: HttpRequest, body: string, token: string)
    requires ReachesToken(w, limiter, req, body, token)
    ensures w.cfg.jwtSecret != ""
  {
    hide RL.Step, PrintedIntake;
  }

  /** Nobody writes with nothing but an area's read scope, or reads with nothing but its write scope: the
      client reads 403, and no upstream is called. */
  lemma WrongScopeForbidden(w: World, limiter: RL.State, req: HttpRequest, fields: seq<Field>, body: string,
                            area: string, suffix: string, header: Claims, payload: Claims)
    requires SignedRequest(w, req, fields, body, area, suffix, header, payload)
    requires ReachesToken(w, limiter, req, body, SignedToken(w.env, header, payload, w.cfg.jwtSecret).value)
    requires "alg" in header ==> header["alg"] == Str("HS256")
    requires InTime(payload, w.now, w.later) && IssuedBy(payload, w.cfg.jwtIssuer)
    requires "admin" !in Identity(payload).roles
    requires Identity(payload).permissions == [if req.verb == "GET" then area + ":write" else area + ":read"]
    ensures var effects := Serve(w, AS_DOCUMENTED, limiter).effects;
            && ReadsError(effects, 403, "forbidden",
                          "Missing required scope: " + (if req.verb == "GET" then area + ":read" else area + ":write"))
            && forall host, port, wire :: UpstreamCalled(host, port, wire) !in effects
  {
    hide Serve, ReadsError, MatchRoute, HasScope, SignedToken, InTime, IssuedBy, Identity, PrintedAs, ReadsBack,
         IsApiArea, RL.Step, AfterArea, HttpRequest.Header;
    AreaIs(area);
    RouteAsksFor(req.verb, area, suffix, w.cfg, Identity(payload));
    OneScopeGrants(req.verb, area, suffix, w.cfg, Identity(payload));
    RouteOfArea(req.verb, area, suffix, w.cfg);
    NeededIsRequired(req.verb, area);
    SignedRequestRefused(w, limiter, req, fields, body, area, suffix, header, payload);
    forall host, port, wire ensures UpstreamCalled(host, port, wire) !in Serve(w, AS_DOCUMENTED, limiter).effects {
      SignedRequestForwardedIff(w, limiter, req, fields, body, area, suffix, header, payload, host, port, wire);
    }
  }
}
