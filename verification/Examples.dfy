/**
 One request in one world, from the client's bytes to the upstream's: that the conditions of
 the laws can be met, and what two of the documented promises come to there.
 */
module Examples {
  import opened Wrappers
  import opened Text
  import opened Reading
  import opened Http
  import opened HttpLaws
  import opened JsonError
  import opened Auth
  import opened Base64
  import opened Jwt
  import opened CheckToken
  import opened TokenLaws
  import opened Proxy
  import opened ProxyLaws
  import opened IdentityLaws
  import opened Router
  import opened HandleClient
  import opened IntakeLaws
  import opened ReplyLaws
  import opened HandleClientLaws
  import opened ForwardLaws
  import RL = RateLimiter

  // -------------------------------------------------------------- the world

  /** JSON for two claim sets, and a MAC of one byte. */
  function ExampleEnv(payload: Claims): Env {
    Env(x => if x == [1] then Some(Obj(SignedHeader(map[]))) else Some(Obj(payload)),
        j => if j == Obj(SignedHeader(map[])) then [1] else [2],
        (secret, data) => Some([3]))
  }

  lemma ExampleReadsBack(payload: Claims)
    ensures ReadsBack(ExampleEnv(payload), SignedHeader(map[])) && ReadsBack(ExampleEnv(payload), payload)
    ensures SignedToken(ExampleEnv(payload), map[], payload, "secret").Some?
  {
    hide Unpadded;
    var one, two: Bytes := [1], [2];
    assert one[0] != two[0];
  }

  function ExampleToken(payload: Claims): string {
    ExampleReadsBack(payload);
    SignedToken(ExampleEnv(payload), map[], payload, "secret").value
  }

  lemma ExampleTokenIs(payload: Claims)
    ensures IsWord(ExampleToken(payload)) && |ExampleToken(payload)| <= 11
  {
    hide Unpadded, IsWord;
    var env := ExampleEnv(payload);
    ExampleReadsBack(payload);
    TokenIsWord(env, map[], payload, "secret");
    PartText(env.serialize(Obj(SignedHeader(map[]))));
    PartText(env.serialize(Obj(payload)));
    PartText([3]);
  }

  function ExampleFields(payload: Claims): seq<Field> {
    [Field("authorization", "Bearer " + ExampleToken(payload))]
  }

  /** GET /api/users with a signed token. */
  function ExampleRequest(payload: Claims): HttpRequest {
    HttpRequest("GET", "/api/users", "/api/users", "", "HTTP/1.1",
                map["authorization" := "Bearer " + ExampleToken(payload)], "", "")
  }

  function ExampleStream(payload: Claims): string {
    PrintHead("GET", "/api/users", "HTTP/1.1", ExampleFields(payload)) + (CRLF + "")
  }

  const EXAMPLE_CONFIG := Config("secret", "", 0, 1, 100, map["users" := "http://users"])
  const EXAMPLE_LIMITER := RL.State(100, map[])
  const EXAMPLE_ADDRESS := UpstreamAddr("users", 80, "")

  function ExampleWorld(payload: Claims, connection: ConnectResult, answer: NetResult): World {
    World(Chop(ExampleStream(payload)), "10.0.0.1", EXAMPLE_CONFIG, 1, ExampleEnv(payload), e => "", 0, 0,
          [Exp, Iat, Nbf], (host, port) => connection, (host, port, wire) => answer)
  }

  // ------------------------------------------------------- its printed request

  lemma ExampleLine()
    ensures AcceptableLine("GET", "/api/users", "HTTP/1.1")
    ensures PathOf("/api/users") == "/api/users" && QueryOf("/api/users") == ""
  {
    hide Find, PathOf, QueryOf;
    PathOfIs("/api/users", "");
    forall i ensures !MatchAt("/api/users", "..", i) {
      DotsAt("/api/users", i);
    }
    NoDotsFound("/api/users");
  }

  lemma ExampleField(token: string)
    requires IsWord(token) && |token| <= 11
    ensures var f := Field("authorization", "Bearer " + token); Printable(f) && InNormalForm(f)
  {
    hide Find, MatchAt, OneLine, Lower;
    var value := "Bearer " + token;
    assert value[0] == 'B' && value[|value| - 1] == token[|token| - 1];
    assert !IsBlank(token[|token| - 1]);
    OneLineWithout("authorization");
    forall i | 0 <= i < |value| ensures value[i] != '\r' {
      if i >= 7 { assert value[i] == token[i - 7]; }
    }
    OneLineWithout(value);
    LowerFixed("authorization");
  }

  lemma ExampleIsPrinted(payload: Claims)
    ensures PrintedAs(Chop(ExampleStream(payload)), ExampleRequest(payload), ExampleFields(payload), "")
  {
    hide Chop, Flat, Chunks, PathOf, QueryOf, AcceptableLine, Printable, InNormalForm, ExampleToken, IsWord;
    ExampleLine();
    ExampleTokenIs(payload);
    ExampleField(ExampleToken(payload));
    FlatChop(ExampleStream(payload));
    OneFieldMap(ExampleFields(payload)[0]);
    OneFieldHead(ExampleFields(payload)[0]);
    assert "content-length"[0] != "authorization"[0];
  }

  lemma OneFieldMap(f: Field)
    ensures FieldMap([f]) == map[f.name := f.value]
  {
    assert [f][..0] == [];
  }

  lemma OneFieldHead(f: Field)
    requires |f.name| + |f.value| <= 100
    ensures |PrintHead("GET", "/api/users", "HTTP/1.1", [f])| <= 200
  {
    assert PrintLines([f])[1..] == [];
    assert Join(PrintLines([f])) == PrintLine(f) + CRLF + Join([]);
  }

  lemma ExampleIsSigned(payload: Claims, connection: ConnectResult, answer: NetResult)
    ensures SignedRequest(ExampleWorld(payload, connection, answer), ExampleRequest(payload), ExampleFields(payload),
                          "", "users", "", map[], payload)
  {
    hide PrintedAs, ReadsBack, SignedToken, ExampleEnv, ExampleFields, ExampleStream, Chop;
    ExampleIsPrinted(payload);
    ExampleReadsBack(payload);
    ThreeKeys([Exp, Iat, Nbf]);
    assert AREAS[0] == "users";
    assert "/api/" + "users" + "" == "/api/users";
  }

  lemma ExampleIsTaken(w: World, payload: Claims)
    requires w.cfg == EXAMPLE_CONFIG
    ensures PrintedIntake(w, ExampleRequest(payload), "").Taken?
  {
    hide ExampleToken, ErrorResponse;
    OtherNames();
  }

  lemma OtherNames()
    ensures "transfer-encoding" != "authorization" && "content-length" != "authorization"
  {
    assert "transfer-encoding"[0] != "authorization"[0] && "content-length"[0] != "authorization"[0];
  }

  lemma ExampleRoom(ip: string, now: int)
    ensures RL.Step(true, EXAMPLE_LIMITER, ip, now).1
  {
  }

  lemma ExampleAddress()
    ensures EXAMPLE_CONFIG.UpstreamFor("users") == "http://users"
    ensures ParseUpstream("http://users") == Ok(EXAMPLE_ADDRESS)
  {
    hide ParseUpstream;
    assert "http://" + ("users" + "") == "http://users";
    assert ':' !in "users" && '/' !in "users";
    AddressReads("users", 80, "");
  }

  lemma ExampleIsUnhindered(payload: Claims, connection: ConnectResult, answer: NetResult)
    ensures Unhindered(ExampleWorld(payload, connection, answer), EXAMPLE_LIMITER, ExampleRequest(payload), "", "users",
                       ExampleToken(payload), EXAMPLE_ADDRESS)
  {
    hide ExampleStream, Chop, ExampleEnv, ParseUpstream, ExampleToken, IsWord, PrintedIntake, RL.Step,
         Config.UpstreamFor;
    var w := ExampleWorld(payload, connection, answer);
    ExampleTokenIs(payload);
    ExampleIsTaken(w, payload);
    ExampleRoom(w.clientIp, w.seconds);
    ExampleAddress();
  }

  /** The token of IdentityLaws: it may read users. */
  lemma ExampleIsEntitled(connection: ConnectResult, answer: NetResult)
    ensures Entitled(ExampleWorld(COMMA_ROLE, connection, answer), "GET", "users", map[], COMMA_ROLE)
  {
    hide ExampleStream, Chop, ExampleEnv, Identity, HasScope;
    CommaRole();
    ReaderRights();
    assert "users" + ":read" == "users:read";
    NoDates();
  }

  lemma NoDates()
    ensures "exp" !in COMMA_ROLE && "iat" !in COMMA_ROLE && "nbf" !in COMMA_ROLE
  {
    assert |"roles"| != |"exp"| && |"permissions"| != |"exp"|;
    assert |"iat"| == 3 && |"nbf"| == 3;
  }

  // ------------------------------------------------------------ what it shows

  function ExampleSent(): HttpRequest {
    ExampleRequest(COMMA_ROLE).(clientIp := "10.0.0.1")
  }

  const EXAMPLE_ROUTE := Api("users", "http://users", "/", "users:read")

  /** Every gate can be passed: this request passes them all. */
  lemma ExamplePasses(connection: ConnectResult, answer: NetResult)
    ensures Passes(ExampleWorld(COMMA_ROLE, connection, answer), AS_DOCUMENTED, EXAMPLE_LIMITER,
                   ExampleSent(), EXAMPLE_ROUTE, Identity(COMMA_ROLE), EXAMPLE_ADDRESS)
  {
    hide Passes, SignedRequest, Unhindered, Entitled, Identity, ExampleStream, Chop, ExampleEnv, ExampleFields;
    var w, req := ExampleWorld(COMMA_ROLE, connection, answer), ExampleRequest(COMMA_ROLE);
    ExampleIsSigned(COMMA_ROLE, connection, answer);
    ExampleIsUnhindered(COMMA_ROLE, connection, answer);
    ExampleIsEntitled(connection, answer);
    ExampleToGo(w, req);
    SignedRequestPassesIff(w, EXAMPLE_LIMITER, req, ExampleFields(COMMA_ROLE), "", "users", "", map[], COMMA_ROLE,
                           ExampleSent(), EXAMPLE_ROUTE, Identity(COMMA_ROLE), EXAMPLE_ADDRESS);
  }

  lemma ExampleToGo(w: World, req: HttpRequest)
    requires w.cfg == EXAMPLE_CONFIG && w.clientIp == "10.0.0.1" && req == ExampleRequest(COMMA_ROLE)
    ensures Sent(w, req, "") == ExampleSent() && RouteFor(w, "GET", "users", "") == EXAMPLE_ROUTE
  {
    hide ExampleToken;
    assert "users" + ":read" == "users:read" && "/" + "" == "/";
  }

  /** 504 is for a connection that times out. An upstream that takes the request and then lets recv time
      out is a timeout too, and the client reads 502. */
  lemma TimeoutsRead()
    ensures var w := ExampleWorld(COMMA_ROLE, ConnectTimedOut, SendFailed);
            EndsWith(Serve(w, AS_DOCUMENTED, EXAMPLE_LIMITER).effects, 504)
    ensures var w := ExampleWorld(COMMA_ROLE, Connected, Exchange([], true));
            EndsWith(Serve(w, AS_DOCUMENTED, EXAMPLE_LIMITER).effects, 502)
  {
    hide Passes, EndsWith, Serve, UpstreamWire, COMMA_ROLE, ExampleStream, Chop, ExampleEnv, ExampleSent;
    ExamplePasses(ConnectTimedOut, SendFailed);
    TimeoutSeenIff(ExampleWorld(COMMA_ROLE, ConnectTimedOut, SendFailed), AS_DOCUMENTED, EXAMPLE_LIMITER,
                   ExampleSent(), EXAMPLE_ROUTE, Identity(COMMA_ROLE), EXAMPLE_ADDRESS);
    ExamplePasses(Connected, Exchange([], true));
    TimeoutSeenIff(ExampleWorld(COMMA_ROLE, Connected, Exchange([], true)), AS_DOCUMENTED, EXAMPLE_LIMITER,
                   ExampleSent(), EXAMPLE_ROUTE, Identity(COMMA_ROLE), EXAMPLE_ADDRESS);
  }

  /** A client whose token has the one role "viewer,admin" is let through to read users, and the upstream,
      parsing what it is sent, reads a caller with the role "admin". */
  lemma CommaRoleReachesUpstream(answer: NetResult) returns (wire: string, e: nat, head: HttpRequest)
    ensures UpstreamCalled("users", 80, wire)
            in Serve(ExampleWorld(COMMA_ROLE, Connected, answer), AS_DOCUMENTED, EXAMPLE_LIMITER).effects
    ensures Find(wire, BLANK_LINE, 0) == Some(e) && e + 2 <= |wire| && ParseRequest(wire[..e + 2]) == Some(head)
    ensures "admin" !in Identity(COMMA_ROLE).roles && IdentitySeen(head.headers).roles == ["viewer", "admin"]
  {
    hide Passes, Serve, UpstreamWire, COMMA_ROLE, ExampleStream, Chop, ExampleEnv, ExampleSent, Identity, IdentitySeen,
         Table, UpstreamRows, RowsFit, ParseRequest, Find, Portable, PathOf, QueryOf;
    var w, auth := ExampleWorld(COMMA_ROLE, Connected, answer), Identity(COMMA_ROLE);
    wire := UpstreamWire(EXAMPLE_ADDRESS, ExampleSent(), "/", auth);
    ExamplePasses(Connected, answer);
    UpstreamCalledIff(w, AS_DOCUMENTED, EXAMPLE_LIMITER, "users", 80, wire);
    EmptyPrefix();
    ExampleOrder();
    PassingMeans(w, AS_DOCUMENTED, EXAMPLE_LIMITER, ExampleSent(), EXAMPLE_ROUTE, auth, EXAMPLE_ADDRESS);
    ExampleRowsFit();
    CommaMakesTwoRoles("users", ExampleSent());
    e := Find(wire, BLANK_LINE, 0).value;
    head := ParseRequest(wire[..e + 2]).value;
  }

  lemma EmptyPrefix()
    ensures PlainPrefix("")
  {
    forall i ensures !MatchAt("", "..", i) { DotsAt("", i); }
  }

  lemma ExampleOrder()
    ensures TableOrder([Exp, Iat, Nbf])
  {
    ThreeKeys([Exp, Iat, Nbf]);
  }

  lemma ExampleRowsFit()
    ensures RowsFit(UpstreamRows("users", ExampleSent(), Identity(COMMA_ROLE)))
  {
    hide Trim, ExampleToken, COMMA_ROLE, Identity, Sanitize, Csv;
    CommaRole();
    var auth := AuthInfo(true, "", ["viewer,admin"], ["users:read"]);
    var rows := UpstreamRows("users", ExampleSent(), auth);
    ShortLists();
    assert "content-type"[0] != "authorization"[0];
    forall i | 0 <= i < |rows| && rows[i].present ensures |Trim(rows[i].value)| <= 8192 {
      TrimShortens(rows[i].value);
    }
  }

  lemma ShortLists()
    ensures |Csv(["viewer,admin"])| == 12 && |Csv(["users:read"])| == 10
  {
  }

  lemma TrimShortens(s: string)
    ensures |Trim(s)| <= |s|
  {
    hide Trim;
    var l, r := TrimSplit(s);
  }
}
