/** The request a connection takes in, as a function of the client's byte stream. */
module IntakeLaws {
  import opened Wrappers
  import opened Text
  import opened Numbers
  import opened Reading
  import opened Http
  import opened HttpLaws
  import opened Response
  import opened JsonError
  import opened CheckToken
  import opened Proxy
  import opened ProxyLaws
  import opened Router
  import opened HandleClient
  import opened ReplyLaws
  import RL = RateLimiter

  // ---------------------------------------------------------------- as coded

  /** As the code cuts the head, no connection gets past the parser: it is dropped, refused for the
      size of its head, or refused as malformed, and the limiter never hears of it. */
  lemma AsCodedNothingIsServed(w: World, limiter: RL.State)
    ensures var run := Serve(w, AS_CODED, limiter);
            && run.limiter == limiter
            && (|| run.effects == [Closed]
                || run.effects == Finish(ErrorResponse(413, "headers_too_large", "Request head is too large."))
                || run.effects == Finish(ErrorResponse(400, "bad_request", "Malformed HTTP request.")))
  {
    hide ErrorResponse, ParseRequest, Find, Finish, CheckBody, ReadHead;
    match ReadHead("", w.script) {
      case HeadDone(head, rest) =>
        match Find(head, BLANK_LINE, 0) {
          case None =>
          case Some(eoh) => CutBeforeBlankLineRejected(head, eoh);
        }
      case _ =>
    }
  }

  // ------------------------------------------------- from stream to request

  function DeclaredLength(req: HttpRequest): nat {
    var n := ContentLength(req.Header("content-length"));
    if n.Some? then n.value else 0
  }

  /** What the checks in front of the body let pass. */
  predicate MayHaveBody(w: World, req: HttpRequest) {
    && req.Header("transfer-encoding") == ""
    && (req.Header("content-length") == "" || ContentLength(req.Header("content-length")).Some?)
    && DeclaredLength(req) <= w.cfg.maxBodyBytes
  }

  /** The parsed request with what handleClient adds to it, for a blank line at `e`. */
  function Complete(w: World, req: HttpRequest, stream: string, e: nat): HttpRequest
    requires e + 4 + DeclaredLength(req) <= |stream|
  {
    req.(body := stream[e + 4..][..DeclaredLength(req)], clientIp := w.clientIp)
  }

  /** Sections 1 and 2 on a byte stream with its blank line at `e`. */
  function IntakeAt(w: World, keep: nat, stream: string, e: nat): Intake
    requires keep <= 4 && e + 4 <= |stream|
  {
    match ParseRequest(stream[..e + keep])
    case None => Refused(ErrorResponse(400, "bad_request", "Malformed HTTP request."))
    case Some(req) =>
      if req.Header("transfer-encoding") != "" then
        Refused(ErrorResponse(400, "bad_request", "Chunked transfer is not supported."))
      else if req.Header("content-length") != "" && ContentLength(req.Header("content-length")).None? then
        Refused(ErrorResponse(400, "bad_request", "Bad Content-Length."))
      else if DeclaredLength(req) > w.cfg.maxBodyBytes then
        Refused(ErrorResponse(413, "body_too_large", "Request body exceeds the limit."))
      else if e + 4 + DeclaredLength(req) > |stream| then Dropped
      else Taken(Complete(w, req, stream, e))
  }

  /** Sections 1 and 2 on a byte stream. */
  function StreamIntake(w: World, keep: nat, stream: string): Intake
    requires keep <= 4
  {
    var e := Find(stream, BLANK_LINE, 0);
    if e.Some? && e.value + 4 <= MAX_HEADER_BYTES then IntakeAt(w, keep, stream, e.value)
    else if |stream| >= MAX_HEADER_BYTES then
      Refused(ErrorResponse(413, "headers_too_large", "Request head is too large."))
    else Dropped
  }

  /** No read of the body can take the gateway over its maximum before the body is whole. */
  ghost predicate CannotOvershoot(w: World, keep: nat, stream: string, e: nat)
    requires keep <= 4 && e + 4 <= |stream|
  {
    match ParseRequest(stream[..e + keep])
    case None => true
    case Some(req) =>
      var n, available := DeclaredLength(req), |stream| - e - 4;
      MayHaveBody(w, req) && 0 < n <= available ==>
        available <= w.cfg.maxBodyBytes || n + RECV_BUFFER - 1 <= w.cfg.maxBodyBytes
  }

  /** The stream alone decides: its blank line does not end where the head's cap falls, between bytes
      16384 and 20479, and its body cannot overshoot. */
  ghost predicate Settled(w: World, keep: nat, stream: string)
    requires keep <= 4
  {
    match Find(stream, BLANK_LINE, 0)
    case None => true
    case Some(e) => e + 4 > 20479 || (e + 4 <= 16384 && CannotOvershoot(w, keep, stream, e))
  }

  lemma IntakeAtFromStream(w: World, keep: nat, e: nat)
    requires keep <= 4 && Chunks(w.script)
    requires Find(Flat(w.script), BLANK_LINE, 0) == Some(e) && e + 4 <= MAX_HEADER_BYTES
    requires CannotOvershoot(w, keep, Flat(w.script), e)
    ensures TakeIn(w, keep) == IntakeAt(w, keep, Flat(w.script), e)
  {
    hide ParseRequest, ErrorResponse, ReadHead, ReadBody, Find, Flat, ContentLength, HttpRequest.Header;
    var stream := Flat(w.script);
    SameHeadForAllChunkings(w.script, e);
    var r := ReadHead("", w.script);
    assert r.head == stream[..|r.head|];
    assert r.head[..e + keep] == stream[..e + keep];
    match ParseRequest(stream[..e + keep]) {
      case None =>
      case Some(req) =>
        var n := DeclaredLength(req);
        if n > |stream| - e - 4 {
          BodyShort(r.head[e + 4..], r.rest, n, w.cfg.maxBodyBytes);
        } else if MayHaveBody(w, req) {
          RequestIndependentOfChunking(w.script, e, n, w.cfg.maxBodyBytes);
        }
    }
  }

  /** The request taken in, or the refusal, is a function of the byte stream, for every settled one. */
  lemma IntakeFromStream(w: World, keep: nat)
    requires keep <= 4 && Chunks(w.script) && Settled(w, keep, Flat(w.script))
    ensures TakeIn(w, keep) == StreamIntake(w, keep, Flat(w.script))
  {
    hide ParseRequest, ErrorResponse, ReadHead, Find, Flat, CannotOvershoot, IntakeAt, CheckBody;
    var stream := Flat(w.script);
    var e := Find(stream, BLANK_LINE, 0);
    if e.Some? && e.value + 4 <= MAX_HEADER_BYTES {
      IntakeAtFromStream(w, keep, e.value);
    } else {
      assert "" + stream == stream;
      HeadRefused("", w.script);
    }
  }

  // ------------------------------------------------- when the cuts show

  lemma IntakeOfHead(w: World, keep: nat, head: string, eoh: nat, rest: Script)
    requires keep <= 4 && eoh + 4 <= |head| && Find(head, BLANK_LINE, 0) == Some(eoh)
    requires ReadHead("", w.script) == HeadDone(head, rest)
    requires ParseRequest(head[..eoh + keep]).Some?
    ensures TakeIn(w, keep) == CheckBody(w, ParseRequest(head[..eoh + keep]).value, head[eoh + 4..], rest)
  {
    hide ParseRequest, ErrorResponse, ReadHead, Find, MatchAt, CheckBody;
  }

  lemma IntakeAfterHead(w: World, keep: nat, stream: string, e: nat, rest: Script)
    requires keep <= 4 && e + 4 <= |stream| && Find(stream, BLANK_LINE, 0) == Some(e)
    requires ReadHead("", w.script) == HeadDone(stream[..e + 4], rest)
    requires ParseRequest(stream[..e + keep]).Some?
    ensures TakeIn(w, keep) == CheckBody(w, ParseRequest(stream[..e + keep]).value, "", rest)
  {
    hide ParseRequest, ReadHead, Find, MatchAt, CheckBody, TakeIn;
    var head := stream[..e + 4];
    NotYetIffShort(stream, e, e + 4);
    HeadSlices(head, "", stream, e, keep);
    IntakeOfHead(w, keep, head, e, rest);
  }

  /** The front of a stream, read past its blank line: the head in it, and what follows the line. */
  lemma HeadSlices(head: string, rest: string, stream: string, e: nat, keep: nat)
    requires keep <= 4 && e + 4 <= |head| <= |stream|
    requires head + rest == stream || head == stream[..e + 4]
    ensures head[..e + keep] == stream[..e + keep]
    ensures head + rest == stream ==> head[e + 4..] + rest == stream[e + 4..]
    ensures |head| == e + 4 ==> head[e + 4..] == ""
  {
  }

  /** One stream, two cuts: one brings more than the maximum with the body's last byte, the other
      stops at the body's end. */
  lemma OvershootShows(w: World, keep: nat, stream: string, e: nat) returns (a: Script, b: Script)
    requires keep <= 4 && e + 4 <= |stream| && Find(stream, BLANK_LINE, 0) == Some(e) && e + 4 <= MAX_HEADER_BYTES
    requires !CannotOvershoot(w, keep, stream, e)
    ensures CutOf(a, stream) && CutOf(b, stream)
    ensures TakeIn(w.(script := a), keep).Refused? && TakeIn(w.(script := b), keep).Taken?
  {
    hide ParseRequest, ErrorResponse, ReadHead, ReadBody, Find, Flat, Chop, ContentLength, HttpRequest.Header, CutOf,
         GreedyCut, CutAtBlankLine, TakeIn;
    var req := ParseRequest(stream[..e + keep]).value;
    var n, bytes := DeclaredLength(req), stream[e + 4..];
    GreedyCutIsCut(bytes, n - 1);
    assert "" + bytes == bytes;
    GreedyCutTooLarge("", bytes, n, w.cfg.maxBodyBytes);
    CutAtBlankLineReads(stream, e, GreedyCut(bytes, n - 1));
    a := CutAtBlankLine(stream, e, GreedyCut(bytes, n - 1));
    IntakeAfterHead(w.(script := a), keep, stream, e, GreedyCut(bytes, n - 1));
    var exact := Chop(bytes[..n]) + Chop(bytes[n..]);
    ExactCutReads(bytes, n, w.cfg.maxBodyBytes);
    CutAtBlankLineReads(stream, e, exact);
    b := CutAtBlankLine(stream, e, exact);
    IntakeAfterHead(w.(script := b), keep, stream, e, exact);
  }

  lemma HeadErrorsDiffer(message: string)
    ensures ErrorResponse(413, "headers_too_large", "Request head is too large.")
            != ErrorResponse(413, "body_too_large", message)
    ensures ErrorResponse(413, "headers_too_large", "Request head is too large.")
            != ErrorResponse(400, "bad_request", message)
  {
    hide ErrorBody;
    assert "headers_too_large"[0] != "body_too_large"[0];
    if ErrorResponse(413, "headers_too_large", "Request head is too large.")
       == ErrorResponse(413, "body_too_large", message)
    {
      ErrorBodiesDistinct("headers_too_large", "Request head is too large.", "body_too_large", message);
    }
  }

  /** One stream, two cuts: one fills the head's cap before the blank line, the other brings it in time. */
  lemma CapShows(w: World, keep: nat, stream: string, e: nat) returns (a: Script, b: Script)
    requires keep <= 4 && Find(stream, BLANK_LINE, 0) == Some(e) && MAX_HEADER_BYTES < e + 4 <= MAX_BUFFERED
    ensures CutOf(a, stream) && CutOf(b, stream)
    ensures TakeIn(w.(script := a), keep).Refused? && TakeIn(w.(script := b), keep) != TakeIn(w.(script := a), keep)
  {
    hide ParseRequest, ErrorResponse, ReadHead, ReadBody, Find, Flat, LateCut, EarlyCut, ContentLength,
         HttpRequest.Header;
    LateCutRefused(stream, e);
    EarlyCutFound(stream, e);
    CutsAreCuts(stream);
    a, b := LateCut(stream), EarlyCut(stream);
    HeadErrorsDiffer("Request body exceeds the limit.");
    HeadErrorsDiffer("Malformed HTTP request.");
    HeadErrorsDiffer("Chunked transfer is not supported.");
    HeadErrorsDiffer("Bad Content-Length.");
  }

  /** Runs that are the same took in the same, or both took a request. */
  lemma RunTellsIntake(a: World, b: World, keep: nat, limiter: RL.State)
    requires keep <= 4 && Serve(a, keep, limiter) == Serve(b, keep, limiter)
    ensures TakeIn(a, keep) == TakeIn(b, keep) || (TakeIn(a, keep).Taken? && TakeIn(b, keep).Taken?)
  {
    hide TakeIn, Dispatch, RL.Step, ResponseWire, Readable, ErrorResponse;
    RefusedReadable(a, keep);
    RefusedReadable(b, keep);
    var x, y := Serve(a, keep, limiter).effects, Serve(b, keep, limiter).effects;
    assert x[0] == y[0];
    if TakeIn(a, keep).Refused? && TakeIn(b, keep).Refused? {
      WireTellsResponse(TakeIn(a, keep).response, TakeIn(b, keep).response);
    }
  }

  lemma DispatchIgnoresScript(w: World, script: Script, req: HttpRequest)
    ensures Dispatch(w.(script := script), req) == Dispatch(w, req)
  {
    hide ErrorResponse, HealthResponse, Outcome, HasScope, Bearer, MatchRoute, ResponseWire, ParseUpstream,
         UpstreamWire, ProxyReply, ConnectOutcome, ExchangeOutcome;
  }

  lemma SameForScript(w: World, script: Script, keep: nat, stream: string)
    requires keep <= 4
    ensures StreamIntake(w.(script := script), keep, stream) == StreamIntake(w, keep, stream)
    ensures Settled(w.(script := script), keep, stream) <==> Settled(w, keep, stream)
  {
    hide ParseRequest, ErrorResponse, Find;
  }

  /** The same bytes in other chunks make the same run, effect by effect, if the stream is settled. */
  lemma ChunkingDoesNotShow(w: World, a: Script, b: Script, keep: nat, stream: string, limiter: RL.State)
    requires keep <= 4 && CutOf(a, stream) && CutOf(b, stream) && Settled(w, keep, stream)
    ensures Serve(w.(script := a), keep, limiter) == Serve(w.(script := b), keep, limiter)
  {
    hide TakeIn, StreamIntake, RL.Step, Settled, Dispatch, Finish;
    SameForScript(w, a, keep, stream);
    SameForScript(w, b, keep, stream);
    IntakeFromStream(w.(script := a), keep);
    IntakeFromStream(w.(script := b), keep);
    match StreamIntake(w, keep, stream) {
      case Taken(req) =>
        DispatchIgnoresScript(w, a, req);
        DispatchIgnoresScript(w, b, req);
      case _ =>
    }
  }

  /** Exactly when the way the network cuts a stream does not show in the run. */
  lemma ChunkingShowsIff(w: World, keep: nat, stream: string, limiter: RL.State)
    requires keep <= 4
    ensures (forall a, b :: CutOf(a, stream) && CutOf(b, stream) ==>
               Serve(w.(script := a), keep, limiter) == Serve(w.(script := b), keep, limiter))
            <==> Settled(w, keep, stream)
  {
    hide Serve, TakeIn, CutOf, CannotOvershoot, Find;
    if Settled(w, keep, stream) {
      forall a, b | CutOf(a, stream) && CutOf(b, stream)
        ensures Serve(w.(script := a), keep, limiter) == Serve(w.(script := b), keep, limiter)
      {
        ChunkingDoesNotShow(w, a, b, keep, stream, limiter);
      }
    } else {
      var e := Find(stream, BLANK_LINE, 0).value;
      var a, b;
      if e + 4 <= MAX_HEADER_BYTES {
        a, b := OvershootShows(w, keep, stream, e);
      } else {
        a, b := CapShows(w, keep, stream, e);
      }
      if Serve(w.(script := a), keep, limiter) == Serve(w.(script := b), keep, limiter) {
        RunTellsIntake(w.(script := a), w.(script := b), keep, limiter);
      }
    }
  }

  // ------------------------------------------- when the limiter is asked

  /** The stream holds a complete request: a blank line, a head in front of it that parses, no
      transfer encoding, an absent or valid length within the maximum, and that many bytes. */
  ghost predicate RequestIn(w: World, keep: nat, stream: string, e: nat, req: HttpRequest)
    requires keep <= 4
  {
    && Find(stream, BLANK_LINE, 0) == Some(e)
    && ParseRequest(stream[..e + keep]) == Some(req)
    && MayHaveBody(w, req)
    && e + 4 + DeclaredLength(req) <= |stream|
  }

  /** Whatever is taken in, under any cut, is a complete request of the client's byte stream. */
  lemma TakenIsInStream(w: World, keep: nat) returns (e: nat, req: HttpRequest)
    requires keep <= 4 && TakeIn(w, keep).Taken?
    ensures RequestIn(w, keep, Flat(w.script), e, req)
    ensures TakeIn(w, keep) == Taken(Complete(w, req, Flat(w.script), e))
    ensures Chunks(w.script) ==> e + 4 <= 20479
  {
    hide ParseRequest, ReadHead, ReadBody, Find, MatchAt, Flat, ContentLength, HttpRequest.Header, TakeIn, CheckBody,
         MayHaveBody;
    var stream := Flat(w.script);
    var r := ReadHead("", w.script);
    assert "" + stream == stream;
    NoBlankInNothing();
    HeadDoneFromStream("", w.script);
    TakenHead(w, keep);
    e := Find(r.head, BLANK_LINE, 0).value;
    MatchFits(r.head, BLANK_LINE, e);
    HeadSlices(r.head, Flat(r.rest), stream, e, keep);
    req := ParseRequest(stream[..e + keep]).value;
    IntakeOfHead(w, keep, r.head, e, r.rest);
    TakenBody(w, req, r.head[e + 4..], r.rest);
    BodyDoneFromStream(r.head[e + 4..], r.rest, DeclaredLength(req), w.cfg.maxBodyBytes);
  }

  lemma TakenHead(w: World, keep: nat)
    requires keep <= 4 && TakeIn(w, keep).Taken?
    ensures var r := ReadHead("", w.script);
            && r.HeadDone? && Find(r.head, BLANK_LINE, 0).Some?
            && ParseRequest(r.head[..Find(r.head, BLANK_LINE, 0).value + keep]).Some?
  {
    hide ParseRequest, ErrorResponse, ReadHead, Find, CheckBody;
  }

  lemma TakenBody(w: World, req: HttpRequest, leftover: string, rest: Script)
    requires CheckBody(w, req, leftover, rest).Taken?
    ensures var r := ReadBody(leftover, rest, DeclaredLength(req), w.cfg.maxBodyBytes);
            && MayHaveBody(w, req) && r.BodyDone?
            && CheckBody(w, req, leftover, rest) == Taken(req.(body := r.body, clientIp := w.clientIp))
  {
    hide ErrorResponse, ReadBody, ContentLength, HttpRequest.Header;
  }

  lemma NoBlankInNothing()
    ensures Find("", BLANK_LINE, 0).None?
  {
  }

  ghost predicate Asked(effects: seq<Effect>) {
    exists allowed :: LimiterAsked(allowed) in effects
  }

  lemma AskedIffTaken(w: World, keep: nat, limiter: RL.State)
    requires keep <= 4
    ensures Asked(Serve(w, keep, limiter).effects) <==> TakeIn(w, keep).Taken?
  {
    hide TakeIn, ErrorResponse, RL.Step, Dispatch, ResponseWire;
    if TakeIn(w, keep).Taken? {
      var allowed := RL.Step(true, limiter, w.clientIp, w.seconds).1;
      assert Serve(w, keep, limiter).effects[0] == LimiterAsked(allowed);
    }
  }

  /** The limiter is asked only about complete requests; about every one, when the stream is settled
      (its blank line then ends within 16384 bytes); and is otherwise left as it was. */
  lemma LimiterAskedIff(w: World, keep: nat, limiter: RL.State)
    requires keep <= 4 && Chunks(w.script)
    ensures var run, stream := Serve(w, keep, limiter), Flat(w.script);
            && (Asked(run.effects) ==> exists e, req :: RequestIn(w, keep, stream, e, req) && e + 4 <= 20479)
            && (Settled(w, keep, stream) ==>
                  (Asked(run.effects) <==> exists e, req :: RequestIn(w, keep, stream, e, req) && e + 4 <= 16384))
            && run.limiter == (if Asked(run.effects) then RL.Step(true, limiter, w.clientIp, w.seconds).0 else limiter)
  {
    hide TakeIn, ParseRequest, ErrorResponse, Find, Flat, RL.Step, Dispatch, Finish, ContentLength, HttpRequest.Header,
         CannotOvershoot, Asked;
    AskedIffTaken(w, keep, limiter);
    if TakeIn(w, keep).Taken? {
      var e, req := TakenIsInStream(w, keep);
    }
    if Settled(w, keep, Flat(w.script)) {
      IntakeFromStream(w, keep);
    }
  }

  // ------------------------------------------------------ printed requests

  /** What becomes of a request as a client prints it. */
  function PrintedIntake(w: World, req: HttpRequest, body: string): Intake {
    if req.Header("transfer-encoding") != "" then
      Refused(ErrorResponse(400, "bad_request", "Chunked transfer is not supported."))
    else if req.Header("content-length") != "" && |body| > 67108864 then
      Refused(ErrorResponse(400, "bad_request", "Bad Content-Length."))
    else if |body| > w.cfg.maxBodyBytes then
      Refused(ErrorResponse(413, "body_too_large", "Request body exceeds the limit."))
    else Taken(req.(body := body, clientIp := w.clientIp))
  }

  /** Chunks of a request as a client prints it: its headers in any order, its exact body length among
      them, or none and no body. */
  ghost predicate PrintedAs(script: Script, req: HttpRequest, fields: seq<Field>, body: string) {
    && AcceptableLine(req.verb, req.target, req.version)
    && req.path == PathOf(req.target) && req.query == QueryOf(req.target) && req.body == "" && req.clientIp == ""
    && |fields| <= 101 && FieldMap(fields) == req.headers
    && (forall i :: 0 <= i < |fields| ==> Printable(fields[i]) && InNormalForm(fields[i]))
    && (req.Header("content-length") == Decimal(|body|) || (req.Header("content-length") == "" && body == ""))
    && |PrintHead(req.verb, req.target, req.version, fields)| + 2 <= 16384
    && CutOf(script, PrintHead(req.verb, req.target, req.version, fields) + (CRLF + body))
  }

  /** A printed request is taken in whole by the documented cut, however the network cuts it, unless it
      names a transfer encoding or is over a limit. */
  lemma PrintedRequestIsTaken(w: World, req: HttpRequest, fields: seq<Field>, body: string)
    requires PrintedAs(w.script, req, fields, body)
    ensures TakeIn(w, AS_DOCUMENTED) == PrintedIntake(w, req, body)
  {
    hide ParseRequest, PrintHead, TakeIn, Find, Flat, InNormalForm, Printable, PathOf, QueryOf, FieldMap, ErrorResponse,
         HttpRequest.Header, ContentLength, Decimal;
    var head := PrintHead(req.verb, req.target, req.version, fields);
    var stream := head + (CRLF + body);
    RequestRoundTrip(req, fields);
    CutAfterLastBreak(req.verb, req.target, req.version, fields, body);
    ContentLengthOfDecimal(|body|);
    NoLength();
    var e := |head| - 2;
    assert stream[..e + 2] == head;
    assert stream[e + 4..] == body && body[..|body|] == body;
    IntakeFromStream(w, AS_DOCUMENTED);
  }

  lemma NoLength()
    ensures ContentLength("") == None
  {
  }

  lemma TakenIsAcceptable(w: World, keep: nat)
    requires keep <= 4 && TakeIn(w, keep).Taken?
    ensures var req := TakeIn(w, keep).req;
            AcceptableLine(req.verb, req.target, req.version) && NoDots(PathOf(req.target))
  {
    hide ParseRequest, ReadHead, ReadBody, ErrorResponse, Find, ContentLength, HttpRequest.Header, PathOf;
    var r := ReadHead("", w.script);
    var eoh := Find(r.head, BLANK_LINE, 0).value;
    AcceptedRequest(r.head[..eoh + keep]);
  }
}
