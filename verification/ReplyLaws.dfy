/** What a client reads of the replies it gets. */
module ReplyLaws {
  import opened Wrappers
  import opened Text
  import opened Numbers
  import opened Reading
  import opened Http
  import opened Response
  import opened Relay
  import opened JsonError
  import opened Auth
  import opened CheckToken
  import opened Proxy
  import opened Router
  import opened HandleClient
  import RL = RateLimiter

  // ----------------------------------------------------------------- replies

  /** A response any reader of section 6 can read. */
  ghost predicate Readable(r: HttpResponse) {
    exists x :: Relayable(x) && r == Answer(x)
  }

  lemma ErrorReadable(status: nat, code: string, message: string)
    requires 100 <= status <= 599
    ensures Readable(ErrorResponse(status, code, message))
  {
    OneLineWithout("application/json");
    assert Relayable(Relayed(status, "application/json", ErrorBody(code, message)));
  }

  lemma HealthReadable(cfg: Config)
    ensures Readable(HealthResponse(cfg))
  {
    hide HealthEntries;
    OneLineWithout("application/json");
    var body := "{\"status\":\"ok\",\"version\":\"" + GATEWAY_VERSION + "\",\"upstreams\":{"
                + HealthEntries(cfg, |AREAS|) + "}}";
    assert Relayable(Relayed(200, "application/json", body));
  }

  lemma ContactReadable(w: World, addr: UpstreamAddr, wire: string)
    ensures Readable(ProxyReply(Contact(w, addr, wire)))
  {
    hide ReadResponse, ErrorResponse, ReadAll, Relayable;
    match Contact(w, addr, wire) {
      case ProxyOk(x) =>
        ReadIsRelayable(ReadAll("", w.net(addr.host, addr.port, wire).chunks).value);
      case ProxyFailed(error, timedOut) =>
        ErrorReadable(504, "upstream_timeout", "Upstream module timed out.");
        ErrorReadable(502, "bad_gateway", "Upstream error: " + error);
    }
  }

  /** The reply of a run: the one before the close. */
  ghost predicate RepliesReadably(effects: seq<Effect>) {
    forall i :: 0 <= i < |effects| && effects[i].Replied? ==>
      exists r :: Readable(r) && effects[i].wire == ResponseWire(r)
  }

  lemma FinishReadable(before: seq<Effect>, r: HttpResponse)
    requires Readable(r) && forall i :: 0 <= i < |before| ==> !before[i].Replied?
    ensures RepliesReadably(before + Finish(r))
  {
    hide ResponseWire;
  }

  lemma ForwardReadable(w: World, req: HttpRequest, route: RouteResult, auth: AuthInfo)
    requires route.Api?
    ensures RepliesReadably(Forward(w, req, route, auth))
  {
    hide Readable, RepliesReadably, ErrorResponse, ProxyReply, Contact, ParseUpstream, UpstreamWire, Finish;
    ErrorReadable(502, "bad_gateway", "Upstream not configured: " + route.area);
    FinishReadable([], ErrorResponse(502, "bad_gateway", "Upstream not configured: " + route.area));
    assert forall r :: [] + Finish(r) == Finish(r);
    match ParseUpstream(route.upstreamBase) {
      case Err(e) =>
        var failed := ProxyFailed("bad upstream url: " + AddrText(e), false);
        FailureReadable(failed);
        FinishReadable([], ProxyReply(failed));
      case Ok(addr) =>
        var wire := UpstreamWire(addr, req, route.forwardPath, auth);
        ContactReadable(w, addr, wire);
        FinishReadable([UpstreamCalled(addr.host, addr.port, wire)], ProxyReply(Contact(w, addr, wire)));
        FinishReadable([], ProxyReply(Contact(w, addr, wire)));
    }
  }

  lemma FailureReadable(r: ProxyResult)
    requires r.ProxyFailed? && !r.timedOut
    ensures Readable(ProxyReply(r))
  {
    ErrorReadable(502, "bad_gateway", "Upstream error: " + r.error);
  }

  lemma AuthorizeReadable(w: World, req: HttpRequest, route: RouteResult)
    requires route.Api?
    ensures RepliesReadably(Authorize(w, req, route))
  {
    hide Readable, RepliesReadably, ErrorResponse, Finish, Forward, Outcome, HasScope, Bearer, Reason;
    assert forall r :: [] + Finish(r) == Finish(r);
    var token := Bearer(req.Header("authorization"));
    var (auth, error) := Outcome(w.env, token, w.cfg.jwtSecret, w.cfg.jwtIssuer, w.now, w.later, w.order);
    ErrorReadable(401, "unauthorized", "Missing bearer token.");
    FinishReadable([], ErrorResponse(401, "unauthorized", "Missing bearer token."));
    ErrorReadable(401, "unauthorized", Reason(w, error));
    FinishReadable([], ErrorResponse(401, "unauthorized", Reason(w, error)));
    ErrorReadable(403, "forbidden", "Missing required scope: " + route.requiredScope);
    FinishReadable([], ErrorResponse(403, "forbidden", "Missing required scope: " + route.requiredScope));
    ForwardReadable(w, req, route, auth);
  }

  lemma DispatchReadable(w: World, req: HttpRequest)
    ensures RepliesReadably(Dispatch(w, req))
  {
    hide Readable, RepliesReadably, ErrorResponse, HealthResponse, Finish, MatchRoute, Authorize;
    assert forall r :: [] + Finish(r) == Finish(r);
    match MatchRoute(req.verb, req.target, w.cfg) {
      case Health =>
        HealthReadable(w.cfg);
        FinishReadable([], HealthResponse(w.cfg));
      case NotFound =>
        ErrorReadable(404, "not_found", "Unknown path.");
        FinishReadable([], ErrorResponse(404, "not_found", "Unknown path."));
      case MethodNotAllowed =>
        ErrorReadable(405, "method_not_allowed", "Use GET/POST/PUT/PATCH/DELETE.");
        FinishReadable([], ErrorResponse(405, "method_not_allowed", "Use GET/POST/PUT/PATCH/DELETE."));
      case Api(area, base, path, scope) =>
        AuthorizeReadable(w, req, Api(area, base, path, scope));
    }
  }

  lemma RefusedReadable(w: World, keep: nat)
    requires keep <= 4
    ensures TakeIn(w, keep).Refused? ==> Readable(TakeIn(w, keep).response)
  {
    hide Readable, ErrorResponse, ReadHead, ReadBody, ParseRequest, Find, ContentLength, HttpRequest.Header;
    ErrorReadable(413, "headers_too_large", "Request head is too large.");
    ErrorReadable(400, "bad_request", "Malformed HTTP request.");
    ErrorReadable(400, "bad_request", "Chunked transfer is not supported.");
    ErrorReadable(400, "bad_request", "Bad Content-Length.");
    ErrorReadable(413, "body_too_large", "Request body exceeds the limit.");
  }

  lemma AfterLimiterReadable(allowed: bool, effects: seq<Effect>)
    requires RepliesReadably(effects)
    ensures RepliesReadably([LimiterAsked(allowed)] + effects)
  {
    hide Readable, ResponseWire;
    var all := [LimiterAsked(allowed)] + effects;
    forall i | 0 <= i < |all| && all[i].Replied? ensures exists r :: Readable(r) && all[i].wire == ResponseWire(r) {
      assert all[i] == effects[i - 1];
    }
  }

  /** Every reply of every run reads back with the upstream reader: a status in 100..599, a content
      type and the exact body. */
  lemma EveryReplyReads(w: World, keep: nat, limiter: RL.State, wire: string)
    requires keep <= 4 && Replied(wire) in Serve(w, keep, limiter).effects
    ensures exists x :: Relayable(x) && wire == ResponseWire(Answer(x)) && ReadResponse(wire) == Ok(x)
  {
    hide Relayable, ResponseWire, ReadResponse, Serve, Answer;
    ServeReadable(w, keep, limiter);
    var effects := Serve(w, keep, limiter).effects;
    var i :| 0 <= i < |effects| && effects[i] == Replied(wire);
    var r :| Readable(r) && effects[i].wire == ResponseWire(r);
    var x :| Relayable(x) && r == Answer(x);
    AnswerReadsBack(x);
  }

  lemma ServeReadable(w: World, keep: nat, limiter: RL.State)
    requires keep <= 4
    ensures RepliesReadably(Serve(w, keep, limiter).effects)
  {
    hide Readable, ErrorResponse, Finish, TakeIn, Dispatch, RL.Step, RepliesReadably;
    match TakeIn(w, keep) {
      case Dropped =>
        ClosedReadable();
      case Refused(r) =>
        RefusedReadable(w, keep);
        FinishReadable([], r);
        assert [] + Finish(r) == Finish(r);
      case Taken(req) =>
        DispatchReadable(w, req);
        AfterLimiterReadable(true, Dispatch(w, req));
        var slow := ErrorResponse(429, "rate_limited", "Too many requests, slow down.");
        ErrorReadable(429, "rate_limited", "Too many requests, slow down.");
        FinishReadable([LimiterAsked(false)], slow);
    }
  }

  lemma ClosedReadable()
    ensures RepliesReadably([Closed])
  {
  }

  /** An upstream's bytes are taken whole below 4 MiB and refused from there on, however they arrive. */
  lemma {:induction false} ReadAllIgnoresChunking(raw: string, chunks: Script)
    ensures ReadAll(raw, chunks) ==
            if |raw + Flat(chunks)| >= MAX_UPSTREAM_BYTES then None else Some(raw + Flat(chunks))
    decreases |chunks|
  {
    if chunks == [] {
      assert raw + Flat(chunks) == raw;
    } else {
      assert raw + Flat(chunks) == (raw + chunks[0]) + Flat(chunks[1..]);
      ReadAllIgnoresChunking(raw + chunks[0], chunks[1..]);
    }
  }

  /** The reply of a run says this to whoever reads its bytes. */
  ghost predicate Reads(effects: seq<Effect>, x: Relayed) {
    |effects| >= 2 && effects[|effects| - 2].Replied? && AnswerIs(effects[|effects| - 2].wire, x)
  }

  /** The reply is a JSON error with this code and message. */
  ghost predicate ReadsError(effects: seq<Effect>, status: nat, code: string, message: string) {
    exists body ::
      Reads(effects, Relayed(status, "application/json", body)) && ReadErrorBody(body) == Some((code, message))
  }

  /** The reply has this status. */
  ghost predicate EndsWith(effects: seq<Effect>, status: int) {
    exists x :: Reads(effects, x) && x.status == status
  }

  lemma OneReading(effects: seq<Effect>, x: Relayed, y: Relayed)
    requires Reads(effects, x) && Reads(effects, y)
    ensures x == y
  {
    hide AnswerIs, ReadResponse;
    ReadResponseIs(effects[|effects| - 2].wire, x);
    ReadResponseIs(effects[|effects| - 2].wire, y);
  }

  lemma FinishReads(before: seq<Effect>, x: Relayed)
    requires Relayable(x)
    ensures Reads(before + Finish(Answer(x)), x)
  {
    hide AnswerIs, ReadResponse, ResponseWire, Relayable;
    AnswerReadsBack(x);
    ReadResponseIs(ResponseWire(Answer(x)), x);
  }

  lemma ErrorReads(before: seq<Effect>, status: nat, code: string, message: string)
    requires 100 <= status <= 599
    ensures ReadsError(before + Finish(ErrorResponse(status, code, message)), status, code, message)
  {
    hide Reads, ReadErrorBody, ErrorBody, Finish;
    var x := Relayed(status, "application/json", ErrorBody(code, message));
    OneLineWithout("application/json");
    FinishReads(before, x);
    ErrorBodyReads(code, message);
  }

  lemma ReadsAfter(before: seq<Effect>, effects: seq<Effect>, x: Relayed)
    requires Reads(effects, x)
    ensures Reads(before + effects, x)
  {
    hide AnswerIs;
  }

  lemma ReadsErrorAfter(before: seq<Effect>, effects: seq<Effect>, status: nat, code: string, message: string)
    requires ReadsError(effects, status, code, message)
    ensures ReadsError(before + effects, status, code, message)
  {
    hide Reads, ReadErrorBody;
    var body :|
      Reads(effects, Relayed(status, "application/json", body)) && ReadErrorBody(body) == Some((code, message));
    ReadsAfter(before, effects, Relayed(status, "application/json", body));
  }

  // ------------------------------------------------ what an upstream comes to

  /** Why the bytes of an upstream are no answer, in the order the gateway finds out; None when they are. */
  ghost function Failure(answer: NetResult): Option<string> {
    match answer
    case SendFailed => Some("upstream io failed")
    case Exchange(chunks, failed) =>
      var raw := Flat(chunks);
      if |raw| >= 4 * 1024 * 1024 then Some("upstream response too large")
      else if failed || raw == "" then Some("upstream io failed")
      else if Find(raw, BLANK_LINE, 0).None? then Some("bad upstream response")
      else if !HasStatus(raw) then Some("bad upstream status")
      else None
  }

  /** What the client reads after an attempt to reach an upstream: the gateway's own 502 or 504 for every
      failure, and otherwise what the upstream's bytes say. */
  ghost predicate UpstreamSeen(connection: ConnectResult, answer: NetResult, effects: seq<Effect>) {
    match connection
    case DnsFailed => ReadsError(effects, 502, "bad_gateway", "Upstream error: dns resolve failed")
    case ConnectFailed => ReadsError(effects, 502, "bad_gateway", "Upstream error: connect failed")
    case ConnectTimedOut => ReadsError(effects, 504, "upstream_timeout", "Upstream module timed out.")
    case Connected =>
      match Failure(answer)
      case Some(message) => ReadsError(effects, 502, "bad_gateway", "Upstream error: " + message)
      case None => exists x :: AnswerIs(Flat(answer.chunks), x) && Reads(effects, x)
  }

  /** Complete bytes that arrived in time are an answer or one of three errors. */
  lemma AnswerOrError(chunks: Script)
    ensures match Failure(Exchange(chunks, false))
            case Some(message) => ExchangeOutcome(Exchange(chunks, false)) == ProxyFailed(message, false)
            case None =>
              exists x ::
                && AnswerIs(Flat(chunks), x) && Relayable(x)
                && ExchangeOutcome(Exchange(chunks, false)) == ProxyOk(x)
  {
    hide ReadResponse, Find, HasStatus, AnswerIs, Relayable, Flat, ReadAll;
    assert "" + Flat(chunks) == Flat(chunks);
    ReadAllIgnoresChunking("", chunks);
    RefusedAnswerIs(Flat(chunks));
    ReadIsRelayable(Flat(chunks));
    match ReadResponse(Flat(chunks)) {
      case Ok(x) => ReadResponseIs(Flat(chunks), x);
      case Err(IoFailed) =>
      case Err(BadResponse) =>
      case Err(BadStatus) =>
    }
  }

  lemma ContactSeen(w: World, addr: UpstreamAddr, wire: string, before: seq<Effect>)
    ensures UpstreamSeen(w.connect(addr.host, addr.port), w.net(addr.host, addr.port, wire),
                         before + Finish(ProxyReply(Contact(w, addr, wire))))
  {
    hide Reads, ReadsError, AnswerIs, Relayable, Finish, ErrorResponse, ReadAll, ReadResponse, Flat, HasStatus, Find;
    var effects := before + Finish(ProxyReply(Contact(w, addr, wire)));
    ErrorReads(before, 504, "upstream_timeout", "Upstream module timed out.");
    if Contact(w, addr, wire).ProxyFailed? {
      ErrorReads(before, 502, "bad_gateway", "Upstream error: " + Contact(w, addr, wire).error);
    }
    if w.connect(addr.host, addr.port).Connected? {
      match w.net(addr.host, addr.port, wire) {
        case SendFailed =>
        case Exchange(chunks, failed) =>
          if failed {
            assert "" + Flat(chunks) == Flat(chunks);
            ReadAllIgnoresChunking("", chunks);
          } else {
            AnswerOrError(chunks);
            if Failure(Exchange(chunks, false)).None? {
              var x :|
                && AnswerIs(Flat(chunks), x) && Relayable(x)
                && ExchangeOutcome(Exchange(chunks, false)) == ProxyOk(x);
              FinishReads(before, x);
            }
          }
      }
    } else {
      assert "Upstream error: " + "dns resolve failed" == "Upstream error: dns resolve failed";
      assert "Upstream error: " + "connect failed" == "Upstream error: connect failed";
    }
  }

  lemma UpstreamSeenAfter(connection: ConnectResult, answer: NetResult, before: seq<Effect>, effects: seq<Effect>)
    requires UpstreamSeen(connection, answer, effects)
    ensures UpstreamSeen(connection, answer, before + effects)
  {
    hide Reads, ReadsError, AnswerIs, Failure;
    match connection {
      case DnsFailed =>
        ReadsErrorAfter(before, effects, 502, "bad_gateway", "Upstream error: dns resolve failed");
      case ConnectFailed =>
        ReadsErrorAfter(before, effects, 502, "bad_gateway", "Upstream error: connect failed");
      case ConnectTimedOut =>
        ReadsErrorAfter(before, effects, 504, "upstream_timeout", "Upstream module timed out.");
      case Connected => AnswerSeenAfter(answer, before, effects);
    }
  }

  lemma AnswerSeenAfter(answer: NetResult, before: seq<Effect>, effects: seq<Effect>)
    requires UpstreamSeen(Connected, answer, effects)
    ensures UpstreamSeen(Connected, answer, before + effects)
  {
    hide Reads, ReadsError, AnswerIs;
    match Failure(answer) {
      case Some(message) => ReadsErrorAfter(before, effects, 502, "bad_gateway", "Upstream error: " + message);
      case None =>
        var x :| AnswerIs(Flat(answer.chunks), x) && Reads(effects, x);
        ReadsAfter(before, effects, x);
    }
  }

  const BAD_URL := "Upstream error: bad upstream url: "

  /** What the client reads when a request is let through to the upstream configured for its area. */
  ghost predicate ForwardSeen(w: World, req: HttpRequest, route: RouteResult, auth: AuthInfo, effects: seq<Effect>)
    requires route.Api?
  {
    if route.upstreamBase == "" then ReadsError(effects, 502, "bad_gateway", "Upstream not configured: " + route.area)
    else
      match ParseUpstream(route.upstreamBase)
      case Err(UnsupportedScheme) =>
        ReadsError(effects, 502, "bad_gateway", BAD_URL + "unsupported scheme (want http://)")
      case Err(BadPort) => ReadsError(effects, 502, "bad_gateway", BAD_URL + "bad port")
      case Err(EmptyHost) => ReadsError(effects, 502, "bad_gateway", BAD_URL + "empty host")
      case Ok(addr) =>
        var wire := UpstreamWire(addr, req, route.forwardPath, auth);
        UpstreamSeen(w.connect(addr.host, addr.port), w.net(addr.host, addr.port, wire), effects)
  }

  lemma ForwardIsSeen(w: World, req: HttpRequest, route: RouteResult, auth: AuthInfo)
    requires route.Api?
    ensures ForwardSeen(w, req, route, auth, Forward(w, req, route, auth))
  {
    hide ReadsError, UpstreamSeen, Finish, ErrorResponse, ParseUpstream, UpstreamWire, Contact;
    assert forall r :: [] + Finish(r) == Finish(r);
    ErrorReads([], 502, "bad_gateway", "Upstream not configured: " + route.area);
    match ParseUpstream(route.upstreamBase) {
      case Err(e) =>
        ErrorReads([], 502, "bad_gateway", "Upstream error: " + ("bad upstream url: " + AddrText(e)));
        Assoc("Upstream error: ", "bad upstream url: ", AddrText(e));
        UrlText();
      case Ok(addr) =>
        var wire := UpstreamWire(addr, req, route.forwardPath, auth);
        ContactSeen(w, addr, wire, [UpstreamCalled(addr.host, addr.port, wire)]);
        ContactSeen(w, addr, wire, []);
    }
  }

  lemma UrlText()
    ensures "Upstream error: " + "bad upstream url: " == BAD_URL
  {
  }

  lemma ForwardSeenAfter(w: World, req: HttpRequest, route: RouteResult, auth: AuthInfo,
                         before: seq<Effect>, effects: seq<Effect>)
    requires route.Api? && ForwardSeen(w, req, route, auth, effects)
    ensures ForwardSeen(w, req, route, auth, before + effects)
  {
    hide ReadsError, UpstreamSeen, ParseUpstream, UpstreamWire, BAD_URL;
    forall status: nat, code, message | ReadsError(effects, status, code, message)
      ensures ReadsError(before + effects, status, code, message)
    {
      ReadsErrorAfter(before, effects, status, code, message);
    }
    forall connection, answer | UpstreamSeen(connection, answer, effects)
      ensures UpstreamSeen(connection, answer, before + effects)
    {
      UpstreamSeenAfter(connection, answer, before, effects);
    }
  }

  // ------------------------------------------------------------------- health

  function HealthEntry(cfg: Config, area: string): string {
    "\"" + area + "\":\"" + cfg.UpstreamFor(area) + "\""
  }

  /** The health body: every area and the address its requests go to. */
  function HealthText(cfg: Config): string {
    "{\"status\":\"ok\",\"version\":\"1.0.0\",\"upstreams\":{"
    + (HealthEntry(cfg, "users") + "," + HealthEntry(cfg, "courses") + "," + HealthEntry(cfg, "quests") + ","
       + HealthEntry(cfg, "tests") + "," + HealthEntry(cfg, "attempts") + "," + HealthEntry(cfg, "answers"))
    + "}}"
  }

  lemma HealthEntriesStep(cfg: Config, n: nat)
    requires 0 < n < 6
    ensures HealthEntries(cfg, n + 1) == HealthEntries(cfg, n) + "," + HealthEntry(cfg, AREAS[n])
    ensures HealthEntries(cfg, 1) == HealthEntry(cfg, AREAS[0])
  {
    hide Config.UpstreamFor;
    assert HealthEntries(cfg, 0) == "";
    assert "" + "" + HealthEntry(cfg, AREAS[0]) == HealthEntry(cfg, AREAS[0]);
  }

  lemma HealthReads(cfg: Config, before: seq<Effect>)
    ensures Reads(before + Finish(HealthResponse(cfg)), Relayed(200, "application/json", HealthText(cfg)))
  {
    hide Reads, Finish, HealthEntries, HealthEntry;
    HealthEntriesStep(cfg, 1);
    HealthEntriesStep(cfg, 2);
    HealthEntriesStep(cfg, 3);
    HealthEntriesStep(cfg, 4);
    HealthEntriesStep(cfg, 5);
    OneLineWithout("application/json");
    VersionText();
    FinishReads(before, Relayed(200, "application/json", HealthText(cfg)));
  }

  lemma VersionText()
    ensures "{\"status\":\"ok\",\"version\":\"" + GATEWAY_VERSION + "\",\"upstreams\":{"
            == "{\"status\":\"ok\",\"version\":\"1.0.0\",\"upstreams\":{"
  {
  }

  /** Two readable responses with the same bytes are the same. */
  lemma WireTellsResponse(a: HttpResponse, b: HttpResponse)
    requires Readable(a) && Readable(b) && ResponseWire(a) == ResponseWire(b)
    ensures a == b
  {
    hide Relayable, ResponseWire, ReadResponse, Answer;
    var x :| Relayable(x) && a == Answer(x);
    var y :| Relayable(y) && b == Answer(y);
    AnswerReadsBack(x);
    AnswerReadsBack(y);
  }
}
