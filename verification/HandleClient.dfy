/**
 One connection from first byte to close (HandleClient.cpp), as the sequence of its effects.
 Everything the outside world decides -- how the client's bytes arrive, the clocks, JSON and
 HMAC, the table order, what the network answers -- is the `World`.
 */
module HandleClient {
  import opened Wrappers
  import opened Text
  import opened Numbers
  import opened Reading
  import opened Http
  import opened Response
  import opened Relay
  import opened JsonError
  import opened Auth
  import opened Jwt
  import opened CheckToken
  import opened Proxy
  import opened Router
  import RL = RateLimiter

  const MAX_TOKEN := 8192
  const MAX_UPSTREAM_BYTES := 4 * 1024 * 1024
  const SEND_CHUNK := 65536
  const GATEWAY_VERSION := "1.0.0"

  /** What connecting to an upstream comes to. */
  datatype ConnectResult = DnsFailed | ConnectFailed | ConnectTimedOut | Connected

  /** What sending it a request comes to; `failed` tells an error or timeout of recv from the peer closing. */
  datatype NetResult = SendFailed | Exchange(chunks: Script, failed: bool)

  datatype World = World(
    script: Script,
    clientIp: string,
    cfg: Config,
    seconds: int,
    env: Env,
    what: Exception -> string,
    now: int,
    later: int,
    order: seq<ClaimKey>,
    connect: (string, int) -> ConnectResult,
    net: (string, int, string) -> NetResult)

  datatype Effect =
    | LimiterAsked(allowed: bool)
    | UpstreamCalled(host: string, port: int, wire: string)
    | Replied(wire: string)
    | Closed

  // ------------------------------------------------------------------ sending

  /** What successive sends take, none of them more than 65536 bytes. */
  function Capacity(accepted: seq<nat>): nat {
    if accepted == [] then 0
    else
      var last := accepted[|accepted| - 1];
      Capacity(accepted[..|accepted| - 1]) + (if last < 65536 then last else 65536)
  }

  /** Some sends in a row, none of which fails, take all of `size` bytes. */
  ghost predicate TakesAll(accepted: seq<nat>, size: nat) {
    exists k :: 0 <= k <= |accepted| && size <= Capacity(accepted[..k]) && 0 !in accepted[..k]
  }

  lemma CapacityOneMore(accepted: seq<nat>, k: nat)
    requires k < |accepted|
    ensures Capacity(accepted[..k + 1]) ==
            Capacity(accepted[..k]) + (if accepted[k] < 65536 then accepted[k] else 65536)
  {
    assert accepted[..k + 1][..k] == accepted[..k];
  }

  lemma {:induction false} CapacityGrows(accepted: seq<nat>, j: nat, k: nat)
    requires j <= k <= |accepted|
    ensures Capacity(accepted[..j]) <= Capacity(accepted[..k])
  {
    if j == k {
    } else {
      CapacityOneMore(accepted, k - 1);
      CapacityGrows(accepted, j, k - 1);
    }
  }

  /** `sendAll`: `accepted` lists how many bytes successive sends are willing to take;
      none, or the end of the list, is an error. */
  method SendAll(data: string, accepted: seq<nat>) returns (ok: bool, delivered: string)
    ensures delivered <= data
    ensures ok <==> delivered == data
    ensures ok <==> TakesAll(accepted, |data|)
  {
    delivered := "";
    var sent, calls := 0, 0;
    while sent < |data|
      invariant 0 <= sent <= |data| && delivered == data[..sent]
      invariant 0 <= calls <= |accepted| && 0 !in accepted[..calls]
      invariant sent <= Capacity(accepted[..calls]) && (sent < |data| ==> sent == Capacity(accepted[..calls]))
      decreases |accepted| - calls
    {
      var chunk := if |data| - sent > SEND_CHUNK then SEND_CHUNK else |data| - sent;
      if calls == |accepted| || accepted[calls] == 0 {
        NoMoreTaken(accepted, calls, |data|);
        return false, delivered;
      }
      var n := if accepted[calls] < chunk then accepted[calls] else chunk;
      assert data[..sent + n] == data[..sent] + data[sent..sent + n];
      CapacityOneMore(accepted, calls);
      assert accepted[..calls + 1] == accepted[..calls] + [accepted[calls]];
      delivered := delivered + data[sent..sent + n];
      sent, calls := sent + n, calls + 1;
    }
    ok := true;
  }

  lemma NoMoreTaken(accepted: seq<nat>, calls: nat, size: nat)
    requires calls <= |accepted| && Capacity(accepted[..calls]) < size
    requires calls == |accepted| || accepted[calls] == 0
    ensures !TakesAll(accepted, size)
  {
    forall k | 0 <= k <= |accepted| && size <= Capacity(accepted[..k]) ensures 0 in accepted[..k] {
      if k <= calls {
        CapacityGrows(accepted, k, calls);
      } else {
        assert accepted[..k][calls] == 0;
      }
    }
  }

  // ------------------------------------------------------------ head and body

  /** What the first two sections make of a connection. */
  datatype Intake =
    | Dropped
    | Refused(response: HttpResponse)
    | Taken(req: HttpRequest)

  function CheckBody(w: World, req: HttpRequest, leftover: string, rest: Script): Intake {
    var lengthText := req.Header("content-length");
    if req.Header("transfer-encoding") != "" then
      Refused(ErrorResponse(400, "bad_request", "Chunked transfer is not supported."))
    else if lengthText != "" && ContentLength(lengthText).None? then
      Refused(ErrorResponse(400, "bad_request", "Bad Content-Length."))
    else
      var n := if ContentLength(lengthText).Some? then ContentLength(lengthText).value else 0;
      if n > w.cfg.maxBodyBytes then Refused(ErrorResponse(413, "body_too_large", "Request body exceeds the limit."))
      else match ReadBody(leftover, rest, n, w.cfg.maxBodyBytes)
           case BodyDisconnected => Dropped
           case BodyTooLarge(_) => Refused(ErrorResponse(413, "body_too_large", "Request body exceeds the limit."))
           case BodyDone(body, _) => Taken(req.(body := body, clientIp := w.clientIp))
  }

  /** Sections 1 and 2. `keep` is how much of the blank line stays with the head: the code keeps
      nothing of it, Http.h asks for its first line break. */
  function TakeIn(w: World, keep: nat): Intake
    requires keep <= 4
  {
    match ReadHead("", w.script)
    case HeadDisconnected => Dropped
    case HeadTooLarge(_) => Refused(ErrorResponse(413, "headers_too_large", "Request head is too large."))
    case HeadDone(head, rest) =>
      match Find(head, BLANK_LINE, 0)
      case None => Dropped
      case Some(eoh) =>
        match ParseRequest(head[..eoh + keep])
        case None => Refused(ErrorResponse(400, "bad_request", "Malformed HTTP request."))
        case Some(req) => CheckBody(w, req, head[eoh + 4..], rest)
  }

  const AS_CODED: nat := 0
  const AS_DOCUMENTED: nat := 2

  // ------------------------------------------------------------------- gates

  /** `bearerFromHeader`. */
  function Bearer(header: string): string {
    if "Bearer " <= header then Trim(header[7..]) else ""
  }

  /** The reason `verifyJwt` reports. */
  function Reason(w: World, e: AuthError): string {
    match e
    case NoError => ""
    case EmptyToken => "empty token"
    case NoSecret => "JWT_SECRET is not set, fail closed."
    case TokenExpired => "token expired"
    case IssuerMismatch => "issuer mismatch"
    case VerificationFailed(x) => "verification failed: " + w.what(x)
    case DecodeError(x) => "decode error: " + w.what(x)
  }

  function HealthEntries(cfg: Config, n: nat): string
    requires n <= |AREAS|
  {
    if n == 0 then ""
    else HealthEntries(cfg, n - 1) + (if n == 1 then "" else ",")
         + ("\"" + AREAS[n - 1] + "\":\"" + cfg.UpstreamFor(AREAS[n - 1]) + "\"")
  }

  method PrintHealthEntries(cfg: Config) returns (entries: string)
    ensures entries == HealthEntries(cfg, |AREAS|)
  {
    hide Config.UpstreamFor;
    var areas := AREAS;
    entries := "";
    for i := 0 to |areas|
      invariant entries == HealthEntries(cfg, i)
    {
      if i > 0 { entries := entries + ","; }
      entries := entries + ("\"" + areas[i] + "\":\"" + cfg.UpstreamFor(areas[i]) + "\"");
    }
  }

  function HealthResponse(cfg: Config): HttpResponse {
    Answer(Relayed(200, "application/json",
                   "{\"status\":\"ok\",\"version\":\"" + GATEWAY_VERSION + "\",\"upstreams\":{"
                   + HealthEntries(cfg, |AREAS|) + "}}"))
  }

  // ------------------------------------------------------------------- proxy

  datatype ProxyResult =
    | ProxyOk(relayed: Relayed)
    | ProxyFailed(error: string, timedOut: bool)

  function AddrText(e: AddrError): string {
    match e
    case UnsupportedScheme => "unsupported scheme (want http://)"
    case BadPort => "bad port"
    case EmptyHost => "empty host"
  }

  function ReadText(e: ReadError): string {
    match e
    case IoFailed => "upstream io failed"
    case BadResponse => "bad upstream response"
    case BadStatus => "bad upstream status"
  }

  /** The bytes of an upstream's answer; None once 4 MiB are reached. */
  function ReadAll(raw: string, chunks: Script): Option<string>
    decreases |chunks|
  {
    if |raw| >= MAX_UPSTREAM_BYTES then None
    else if chunks == [] then Some(raw)
    else ReadAll(raw + chunks[0], chunks[1..])
  }

  function ConnectOutcome(r: ConnectResult): ProxyResult
    requires !r.Connected?
  {
    match r
    case DnsFailed => ProxyFailed("dns resolve failed", false)
    case ConnectFailed => ProxyFailed("connect failed", false)
    case ConnectTimedOut => ProxyFailed("connect timeout", true)
  }

  function ExchangeOutcome(r: NetResult): ProxyResult {
    match r
    case SendFailed => ProxyFailed("upstream io failed", false)
    case Exchange(chunks, failed) =>
      match ReadAll("", chunks)
      case None => ProxyFailed("upstream response too large", false)
      case Some(raw) =>
        if failed then ProxyFailed("upstream io failed", false)
        else match ReadResponse(raw)
             case Err(e) => ProxyFailed(ReadText(e), false)
             case Ok(x) => ProxyOk(x)
  }

  /** `forwardRequest` after the address is parsed: connecting, then sending and reading. */
  function Contact(w: World, addr: UpstreamAddr, wire: string): ProxyResult {
    var connection := w.connect(addr.host, addr.port);
    if connection.Connected? then ExchangeOutcome(w.net(addr.host, addr.port, wire)) else ConnectOutcome(connection)
  }

  function ProxyReply(r: ProxyResult): HttpResponse {
    match r
    case ProxyOk(x) => Answer(x)
    case ProxyFailed(error, timedOut) =>
      if timedOut then ErrorResponse(504, "upstream_timeout", "Upstream module timed out.")
      else ErrorResponse(502, "bad_gateway", "Upstream error: " + error)
  }

  function Finish(r: HttpResponse): seq<Effect> { [Replied(ResponseWire(r)), Closed] }

  /** Section 6. */
  function Forward(w: World, req: HttpRequest, route: RouteResult, auth: AuthInfo): seq<Effect>
    requires route.Api?
  {
    if route.upstreamBase == "" then Finish(ErrorResponse(502, "bad_gateway", "Upstream not configured: " + route.area))
    else match ParseUpstream(route.upstreamBase)
         case Err(e) => Finish(ProxyReply(ProxyFailed("bad upstream url: " + AddrText(e), false)))
         case Ok(addr) =>
           var wire := UpstreamWire(addr, req, route.forwardPath, auth);
           (if w.connect(addr.host, addr.port).Connected? then [UpstreamCalled(addr.host, addr.port, wire)] else [])
           + Finish(ProxyReply(Contact(w, addr, wire)))
  }

  /** Sections 5 and 6. */
  ghost function Authorize(w: World, req: HttpRequest, route: RouteResult): seq<Effect>
    requires route.Api?
  {
    var token := Bearer(req.Header("authorization"));
    if token == "" || |token| > MAX_TOKEN then Finish(ErrorResponse(401, "unauthorized", "Missing bearer token."))
    else
      var (auth, error) := Outcome(w.env, token, w.cfg.jwtSecret, w.cfg.jwtIssuer, w.now, w.later, w.order);
      if !auth.ok then Finish(ErrorResponse(401, "unauthorized", Reason(w, error)))
      else if !HasScope(auth, route.area, route.requiredScope) then
        Finish(ErrorResponse(403, "forbidden", "Missing required scope: " + route.requiredScope))
      else Forward(w, req, route, auth)
  }

  /** Sections 4 to 6. */
  ghost function Dispatch(w: World, req: HttpRequest): seq<Effect> {
    match MatchRoute(req.verb, req.target, w.cfg)
    case Health => Finish(HealthResponse(w.cfg))
    case NotFound => Finish(ErrorResponse(404, "not_found", "Unknown path."))
    case MethodNotAllowed => Finish(ErrorResponse(405, "method_not_allowed", "Use GET/POST/PUT/PATCH/DELETE."))
    case Api(area, base, path, scope) => Authorize(w, req, Api(area, base, path, scope))
  }

  /** A whole run: its effects, and the limiter afterwards. */
  datatype Run = Run(effects: seq<Effect>, limiter: RL.State)

  /** Sections 3 to 6. */
  ghost function ServeTaken(w: World, req: HttpRequest, limiter: RL.State): Run {
    var (after, allowed) := RL.Step(true, limiter, w.clientIp, w.seconds);
    Run([LimiterAsked(allowed)]
        + (if allowed then Dispatch(w, req)
           else Finish(ErrorResponse(429, "rate_limited", "Too many requests, slow down."))),
        after)
  }

  ghost function Serve(w: World, keep: nat, limiter: RL.State): Run
    requires keep <= 4
  {
    match TakeIn(w, keep)
    case Dropped => Run([Closed], limiter)
    case Refused(r) => Run(Finish(r), limiter)
    case Taken(req) => ServeTaken(w, req, limiter)
  }

  // --------------------------------------------------------------- the method

  class Connection {
    /** What the next calls of recv return. */
    var incoming: Script
    var effects: seq<Effect>

    constructor (script: Script)
      ensures incoming == script && effects == []
    {
      incoming, effects := script, [];
    }

    method Recv() returns (chunk: Option<string>)
      modifies this`incoming
      ensures old(incoming) == [] ==> chunk == None && incoming == []
      ensures old(incoming) != [] ==> chunk == Some(old(incoming)[0]) && incoming == old(incoming)[1..]
    {
      if incoming == [] { return None; }
      chunk := Some(incoming[0]);
      incoming := incoming[1..];
    }

    method Reply(r: HttpResponse)
      modifies this`effects
      ensures effects == old(effects) + [Replied(ResponseWire(r))]
    {
      var wire := BuildResponse(r);
      effects := effects + [Replied(wire)];
    }

    method Close()
      modifies this`effects
      ensures effects == old(effects) + [Closed]
    {
      effects := effects + [Closed];
    }

    method ReplyAndClose(r: HttpResponse)
      modifies this`effects
      ensures effects == old(effects) + Finish(r)
    {
      Reply(r);
      Close();
    }

    /** The head loop; `done` is headDone, `alive` is false after a disconnect. */
    method ReceiveHead() returns (head: string, done: bool, alive: bool)
      modifies this`incoming
      ensures var r := ReadHead("", old(incoming));
              match r
              case HeadDisconnected => !alive
              case HeadTooLarge(rest) => alive && !done && incoming == rest
              case HeadDone(h, rest) => alive && done && head == h && incoming == rest
    {
      head, done, alive := "", false, true;
      while |head| < MAX_HEADER_BYTES
        invariant alive && !done
        invariant ReadHead("", old(incoming)) == ReadHead(head, incoming)
        decreases |incoming|
      {
        var chunk := Recv();
        if chunk.None? { return head, done, false; }
        head := head + chunk.value;
        if Find(head, BLANK_LINE, 0).Some? { return head, true, alive; }
      }
    }

    /** The body loop; `fits` is false after more than the configured maximum. */
    method ReceiveBody(leftover: string, length: nat, maxBody: int) returns (body: string, fits: bool, alive: bool)
      modifies this`incoming
      ensures var r := ReadBody(leftover, old(incoming), length, maxBody);
              match r
              case BodyDisconnected => !alive
              case BodyTooLarge(rest) => alive && !fits && incoming == rest
              case BodyDone(b, rest) => alive && fits && body == b && incoming == rest
    {
      body, fits, alive := leftover, true, true;
      while |body| < length
        invariant alive && fits
        invariant ReadBody(leftover, old(incoming), length, maxBody) == ReadBody(body, incoming, length, maxBody)
        decreases |incoming|
      {
        var chunk := Recv();
        if chunk.None? { return body, fits, false; }
        body := body + chunk.value;
        if |body| > maxBody { return body, false, alive; }
      }
      if |body| > length { body := body[..length]; }
      assert body[..length] == body;
    }

    /** Sections 1 and 2 of `handleClient`. */
    method TakeRequest(w: World, keep: nat) returns (taken: bool, req: HttpRequest)
      requires keep <= 4 && incoming == w.script
      modifies this
      ensures match TakeIn(w, keep)
              case Dropped => !taken && effects == old(effects) + [Closed]
              case Refused(r) => !taken && effects == old(effects) + Finish(r)
              case Taken(q) => taken && req == q && effects == old(effects)
    {
      hide ParseRequest, Find, Finish, ErrorResponse, CheckBody;
      taken, req := false, HttpRequest("", "", "", "", "", map[], "", "");
      var head, done, alive := ReceiveHead();
      if !alive {
        Close();
        return;
      }
      if !done {
        ReplyAndClose(ErrorResponse(413, "headers_too_large", "Request head is too large."));
        return;
      }
      HeadDoneHasBlankLine("", w.script);
      var eoh := Find(head, BLANK_LINE, 0).value;
      MatchFits(head, BLANK_LINE, eoh);
      var ok;
      ok, req := ParseHttpRequest(head[..eoh + keep]);
      if !ok {
        ReplyAndClose(ErrorResponse(400, "bad_request", "Malformed HTTP request."));
        return;
      }
      taken, req := TakeBody(w, req, head[eoh + 4..]);
    }

    /** Section 2: the length checks and the body. */
    method TakeBody(w: World, parsed: HttpRequest, leftover: string) returns (taken: bool, req: HttpRequest)
      modifies this
      ensures match CheckBody(w, parsed, leftover, old(incoming))
              case Dropped => !taken && effects == old(effects) + [Closed]
              case Refused(r) => !taken && effects == old(effects) + Finish(r)
              case Taken(q) => taken && req == q && effects == old(effects)
    {
      hide ReadBody, Finish, ErrorResponse, HttpRequest.Header, ContentLength;
      taken, req := false, parsed;
      if req.Header("transfer-encoding") != "" {
        ReplyAndClose(ErrorResponse(400, "bad_request", "Chunked transfer is not supported."));
        return;
      }
      var lengthText := req.Header("content-length");
      var n, lengthOk := ParseContentLength(lengthText);
      if lengthText != "" && !lengthOk {
        ReplyAndClose(ErrorResponse(400, "bad_request", "Bad Content-Length."));
        return;
      }
      var length: int := n as int;
      if length > w.cfg.maxBodyBytes {
        ReplyAndClose(ErrorResponse(413, "body_too_large", "Request body exceeds the limit."));
        return;
      }
      var body, fits, alive := ReceiveBody(leftover, length, w.cfg.maxBodyBytes);
      if !alive {
        Close();
        return;
      }
      if !fits {
        ReplyAndClose(ErrorResponse(413, "body_too_large", "Request body exceeds the limit."));
        return;
      }
      taken, req := true, req.(body := body, clientIp := w.clientIp);
    }

    method ReplyHealth(cfg: Config)
      modifies this`effects
      ensures effects == old(effects) + Finish(HealthResponse(cfg))
    {
      hide Finish, HealthEntries;
      var entries := PrintHealthEntries(cfg);
      var body := "{\"status\":\"ok\",\"version\":\"" + GATEWAY_VERSION + "\",\"upstreams\":{" + entries + "}}";
      ReplyAndClose(HttpResponse(200, [Field("content-type", "application/json")], body));
    }

    /** `forwardRequest` with what it does to the outside. */
    method ForwardRequest(w: World, req: HttpRequest, route: RouteResult, auth: AuthInfo)
      requires route.Api?
      modifies this`effects
      ensures effects == old(effects) + Forward(w, req, route, auth)
    {
      hide Finish, ErrorResponse, ParseUpstream, UpstreamWire, ConnectOutcome, ExchangeOutcome, ProxyReply;
      if route.upstreamBase == "" {
        ReplyAndClose(ErrorResponse(502, "bad_gateway", "Upstream not configured: " + route.area));
        return;
      }
      var addr := ParseUpstreamText(route.upstreamBase);
      if addr.Err? {
        ReplyAndClose(ProxyReply(ProxyFailed("bad upstream url: " + AddrText(addr.error), false)));
        return;
      }
      var connection := w.connect(addr.value.host, addr.value.port);
      if !connection.Connected? {
        ReplyAndClose(ProxyReply(ConnectOutcome(connection)));
        return;
      }
      var wire := BuildUpstreamRequest(addr.value, req, route.forwardPath, auth);
      effects := effects + [UpstreamCalled(addr.value.host, addr.value.port, wire)];
      var answer := w.net(addr.value.host, addr.value.port, wire);
      ReplyAndClose(ProxyReply(ExchangeOutcome(answer)));
    }

    /** Sections 4 to 6. */
    method DispatchRequest(w: World, req: HttpRequest)
      requires TableOrder(w.order)
      modifies this`effects
      ensures effects == old(effects) + Dispatch(w, req)
    {
      hide Finish, ErrorResponse, Outcome, HasScope, Forward, HealthResponse, MatchRoute, Bearer, Reason;
      var route := MatchRoute(req.verb, req.target, w.cfg);
      match route {
        case Health =>
          ReplyHealth(w.cfg);
        case NotFound =>
          ReplyAndClose(ErrorResponse(404, "not_found", "Unknown path."));
        case MethodNotAllowed =>
          ReplyAndClose(ErrorResponse(405, "method_not_allowed", "Use GET/POST/PUT/PATCH/DELETE."));
        case Api(area, _, _, scope) =>
          var token := Bearer(req.Header("authorization"));
          if token == "" || |token| > MAX_TOKEN {
            ReplyAndClose(ErrorResponse(401, "unauthorized", "Missing bearer token."));
            return;
          }
          var auth, error := VerifyJwt(w.env, token, w.cfg.jwtSecret, w.cfg.jwtIssuer, w.now, w.later, w.order);
          if !auth.ok {
            ReplyAndClose(ErrorResponse(401, "unauthorized", Reason(w, error)));
            return;
          }
          if !HasScope(auth, area, scope) {
            ReplyAndClose(ErrorResponse(403, "forbidden", "Missing required scope: " + scope));
            return;
          }
          ForwardRequest(w, req, route, auth);
      }
    }

    /** `handleClient`. */
    method HandleClient(w: World, limiter: RL.RateLimiter, keep: nat)
      requires keep <= 4 && TableOrder(w.order)
      requires incoming == w.script && effects == []
      modifies this, limiter
      ensures Run(effects, limiter.Contents()) == Serve(w, keep, old(limiter.Contents()))
    {
      hide TakeIn, Finish, ErrorResponse, Dispatch, RL.Step;
      var taken, req := TakeRequest(w, keep);
      if !taken { return; }
      var allowed := limiter.Allow(w.clientIp, w.seconds);
      effects := effects + [LimiterAsked(allowed)];
      if !allowed {
        ReplyAndClose(ErrorResponse(429, "rate_limited", "Too many requests, slow down."));
        return;
      }
      DispatchRequest(w, req);
    }
  }

  lemma {:induction false} HeadDoneHasBlankLine(head: string, script: Script)
    ensures ReadHead(head, script).HeadDone? ==> Find(ReadHead(head, script).head, BLANK_LINE, 0).Some?
    decreases |script|
  {
    hide Find;
    if |head| >= MAX_HEADER_BYTES || script == [] {
    } else {
      HeadDoneHasBlankLine(head + script[0], script[1..]);
    }
  }
}
