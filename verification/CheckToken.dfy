/** Verification of a bearer token and extraction of the identity in it (CheckToken.cpp). */
module CheckToken {
  import opened Wrappers
  import opened Text
  import opened Jwt
  import opened Auth

  const DENIED := AuthInfo(false, "", [], [])

  /** Why a token is refused; the two exception kinds are reported differently. */
  datatype AuthError =
    | NoError
    | EmptyToken
    | NoSecret
    | TokenExpired
    | IssuerMismatch
    | VerificationFailed(e: Exception)
    | DecodeError(e: Exception)

  /** Which catch clause an exception ends in. */
  function Caught(e: Exception): AuthError {
    if e.WrongAlgorithm? || e.Expired? then VerificationFailed(e) else DecodeError(e)
  }

  function StringsOf(items: seq<Json>): seq<string> {
    if items == [] then []
    else StringsOf(items[..|items| - 1]) + (if items[|items| - 1].Str? then [items[|items| - 1].s] else [])
  }

  /** A claim that is a list of strings or one string; anything else counts as absent. */
  function StringList(payload: Claims, name: string): seq<string> {
    if name !in payload then []
    else match payload[name]
         case Arr(items) => StringsOf(items)
         case Str(s) => [s]
         case _ => []
  }

  function StringClaim(payload: Claims, name: string): string {
    if name in payload && payload[name].Str? then payload[name].s else ""
  }

  method ExtractStringList(payload: Claims, name: string) returns (out: seq<string>)
    ensures out == StringList(payload, name)
  {
    out := [];
    if name !in payload { return; }
    var claim := payload[name];
    if claim.Arr? {
      for i := 0 to |claim.items|
        invariant out == StringsOf(claim.items[..i])
      {
        assert claim.items[..i + 1][..i] == claim.items[..i];
        if claim.items[i].Str? { out := out + [claim.items[i].s]; }
      }
      assert claim.items[..|claim.items|] == claim.items;
    } else if claim.Str? {
      out := out + [claim.s];
    }
  }

  /** The second look at the expiry, with a clock reading of its own. */
  predicate StillFresh(payload: Claims, now: int) {
    "exp" in payload && payload["exp"].Int? ==> payload["exp"].i * TICKS >= now
  }

  ghost function Outcome(env: Env, token: string, secret: string, issuer: string, now: int, later: int,
                         order: seq<ClaimKey>): (AuthInfo, AuthError)
  {
    if token == "" then (DENIED, EmptyToken)
    else if secret == "" then (DENIED, NoSecret)
    else match DecodeToken(env, token)
         case Err(e) => (DENIED, Caught(e))
         case Ok(jwt) =>
           match Verify(env, secret, jwt, now, order)
           case Fail(e) => (DENIED, Caught(e))
           case Pass =>
             if !StillFresh(jwt.payload, later) then (DENIED, TokenExpired)
             else if issuer != "" && StringClaim(jwt.payload, "iss") != issuer then (DENIED, IssuerMismatch)
             else (AuthInfo(true, StringClaim(jwt.payload, "sub"), StringList(jwt.payload, "roles"),
                            StringList(jwt.payload, "permissions")), NoError)
  }

  /** `verifyJwt`; `now` and `later` are its two clock readings, `order` that of the claim table. */
  method VerifyJwt(env: Env, token: string, secret: string, issuer: string, now: int, later: int, order: seq<ClaimKey>)
    returns (info: AuthInfo, error: AuthError)
    requires TableOrder(order)
    ensures (info, error) == Outcome(env, token, secret, issuer, now, later, order)
  {
    info, error := DENIED, NoError;
    if token == "" { return info, EmptyToken; }
    if secret == "" { return info, NoSecret; }
    var decoded := DecodeJwt(env, token);
    if decoded.Err? { return info, Caught(decoded.error); }
    var payload := decoded.value.payload;
    var verified := VerifyToken(env, secret, decoded.value, now, order);
    if verified.Fail? { return info, Caught(verified.e); }
    if "exp" in payload {
      VerifiedExpIsDate(env, secret, decoded.value, now, order);
      if payload["exp"].i * TICKS < later { return info, TokenExpired; }
    }
    if issuer != "" {
      var iss := "";
      if "iss" in payload && payload["iss"].Str? { iss := payload["iss"].s; }
      if iss != issuer { return info, IssuerMismatch; }
    }
    if "sub" in payload && payload["sub"].Str? { info := info.(sub := payload["sub"].s); }
    var roles := ExtractStringList(payload, "roles");
    var permissions := ExtractStringList(payload, "permissions");
    info := info.(ok := true, roles := roles, permissions := permissions);
  }

  // ------------------------------------------------------------- claim table

  lemma {:induction false} ClaimsPassIffAll(order: seq<ClaimKey>, payload: Claims, now: int)
    ensures CheckClaims(order, payload, now).Pass? <==> forall k :: k in order ==> CheckClaim(k, payload, now).Pass?
    ensures CheckClaims(order, payload, now).Fail? ==>
              exists k :: k in order && CheckClaim(k, payload, now) == CheckClaims(order, payload, now)
  {
    hide CheckClaim;
    if order == [] {
    } else {
      ClaimsPassIffAll(order[1..], payload, now);
      assert order == [order[0]] + order[1..];
    }
  }

  /** The second reading finds an integer where the first look passed. */
  lemma VerifiedExpIsDate(env: Env, secret: string, jwt: Decoded, now: int, order: seq<ClaimKey>)
    requires TableOrder(order) && Verify(env, secret, jwt, now, order).Pass?
    ensures "exp" in jwt.payload ==> jwt.payload["exp"].Int?
  {
    ClaimsPassIffAll(order, jwt.payload, now);
    assert CheckClaim(Exp, jwt.payload, now).Pass?;
  }

  /** Dates in a payload, in seconds, bracket the clock, in nanoseconds: integers where present, both ends
      included. */
  ghost predicate InTime(payload: Claims, now: int, later: int) {
    && ("exp" in payload ==>
          && payload["exp"].Int?
          && now <= payload["exp"].i * 1_000_000_000 && later <= payload["exp"].i * 1_000_000_000)
    && ("iat" in payload ==> payload["iat"].Int? && payload["iat"].i * 1_000_000_000 <= now)
    && ("nbf" in payload ==> payload["nbf"].Int? && payload["nbf"].i * 1_000_000_000 <= now)
  }

  lemma ClaimsPassIffInTime(order: seq<ClaimKey>, payload: Claims, now: int, later: int)
    requires TableOrder(order)
    ensures CheckClaims(order, payload, now).Pass? && StillFresh(payload, later) <==> InTime(payload, now, later)
  {
    hide CheckClaims;
    ClaimsPassIffAll(order, payload, now);
    var exp, iat, nbf := CheckClaim(Exp, payload, now), CheckClaim(Iat, payload, now), CheckClaim(Nbf, payload, now);
    assert (forall k :: k in order ==> CheckClaim(k, payload, now).Pass?) <==> exp.Pass? && iat.Pass? && nbf.Pass?;
    assert Exp.Name() == "exp" && Iat.Name() == "iat" && Nbf.Name() == "nbf";
  }

  /** One complaint about dates of each kind. */
  ghost predicate MixedComplaints(payload: Claims, now: int) {
    exists a: ClaimKey, b: ClaimKey ::
      CheckClaim(a, payload, now) == Fail(Expired) && CheckClaim(b, payload, now) == Fail(BadCast)
  }

  lemma ComplaintKinds(key: ClaimKey, payload: Claims, now: int)
    ensures CheckClaim(key, payload, now) in {Pass, Fail(Expired), Fail(BadCast)}
  {
  }

  /** The order of the claim table shows in the first complaint about the claims exactly when one date
      is out of time and another is not an integer. */
  lemma TableOrderShowsIff(payload: Claims, now: int)
    ensures (exists o, o' ::
               TableOrder(o) && TableOrder(o') && CheckClaims(o, payload, now) != CheckClaims(o', payload, now))
            <==> MixedComplaints(payload, now)
  {
    hide CheckClaim, CheckClaims;
    if MixedComplaints(payload, now) {
      var a: ClaimKey, b: ClaimKey :|
        CheckClaim(a, payload, now) == Fail(Expired) && CheckClaim(b, payload, now) == Fail(BadCast);
      var c: ClaimKey :| c != a && c != b;
      FirstComplaint(a, [b, c], payload, now);
      FirstComplaint(b, [a, c], payload, now);
      ThreeKeys([a] + [b, c]);
      ThreeKeys([b] + [a, c]);
    } else {
      forall o, o' | TableOrder(o) && TableOrder(o')
        ensures CheckClaims(o, payload, now) == CheckClaims(o', payload, now)
      {
        ClaimsPassIffAll(o, payload, now);
        ClaimsPassIffAll(o', payload, now);
        forall k: ClaimKey ensures k in o && k in o' { match k { case Exp => case Iat => case Nbf => } }
        forall k: ClaimKey ensures CheckClaim(k, payload, now) in {Pass, Fail(Expired), Fail(BadCast)} {
          ComplaintKinds(k, payload, now);
        }
      }
    }
  }

  lemma ThreeKeys(order: seq<ClaimKey>)
    requires |order| == 3 && order[0] != order[1] && order[1] != order[2] && order[0] != order[2]
    ensures TableOrder(order)
  {
    forall k: ClaimKey ensures k in order {
      match k {
        case Exp => assert order[0].Exp? || order[1].Exp? || order[2].Exp?;
        case Iat => assert order[0].Iat? || order[1].Iat? || order[2].Iat?;
        case Nbf => assert order[0].Nbf? || order[1].Nbf? || order[2].Nbf?;
      }
    }
  }

  lemma FirstComplaint(key: ClaimKey, rest: seq<ClaimKey>, payload: Claims, now: int)
    requires CheckClaim(key, payload, now).Fail?
    ensures CheckClaims([key] + rest, payload, now) == CheckClaim(key, payload, now)
  {
    hide CheckClaim;
  }

  // ------------------------------------------------------ what is accepted

  /** `token` is h.p.s, signed with `secret` under HS256, for these two claim sets. */
  ghost predicate Genuine(env: Env, token: string, secret: string, h: string, p: string, s: string,
                          header: Claims, payload: Claims)
  {
    && '.' !in h && '.' !in p && token == h + "." + p + "." + s
    && DecodePart(h).Ok? && ParseClaims(env, DecodePart(h).value) == Ok(header)
    && DecodePart(p).Ok? && ParseClaims(env, DecodePart(p).value) == Ok(payload)
    && "alg" in header && header["alg"] == Str("HS256")
    && DecodePart(s).Ok? && env.hmac(secret, h + "." + p) == Some(DecodePart(s).value)
  }

  ghost predicate IssuedBy(payload: Claims, issuer: string) {
    issuer == "" || ("iss" in payload && payload["iss"] == Str(issuer))
  }

  function Identity(payload: Claims): AuthInfo {
    AuthInfo(true, StringClaim(payload, "sub"), StringList(payload, "roles"), StringList(payload, "permissions"))
  }

  /** A token splits at its first two dots and nowhere else. */
  lemma SplitTokenIs(token: string, h: string, p: string, s: string)
    ensures SplitToken(token) == Some((h, p, s)) <==> '.' !in h && '.' !in p && token == h + "." + p + "." + s
  {
    if '.' !in h && '.' !in p && token == h + "." + p + "." + s {
      SplitOfParts(h, p, s);
    } else if SplitToken(token) == Some((h, p, s)) {
      PartsOfSplit(token);
    }
  }

  lemma PartsOfSplit(token: string)
    requires SplitToken(token).Some?
    ensures var (h, p, s) := SplitToken(token).value;
            '.' !in h && '.' !in p && token == h + "." + p + "." + s
  {
    hide MatchAt;
    FindChar(token, '.');
    var a := Find(token, ".", 0).value;
    FindShift(token, ".", a + 1);
    FindChar(token[a + 1..], '.');
    var b := Find(token, ".", a + 1).value;
    assert token[a + 1..][..b - a - 1] == token[a + 1..b];
    assert token[b] == token[a + 1..][b - a - 1];
    assert token == token[..a] + [token[a]] + token[a + 1..b] + [token[b]] + token[b + 1..];
  }

  lemma SplitOfParts(h: string, p: string, s: string)
    requires '.' !in h && '.' !in p
    ensures SplitToken(h + "." + p + "." + s) == Some((h, p, s))
  {
    hide MatchAt;
    var token := h + "." + p + "." + s;
    assert token == h + ['.'] + (p + "." + s);
    FindCharAfter(h, '.', p + "." + s);
    assert token[|h| + 1..] == p + ['.'] + s;
    FindShift(token, ".", |h| + 1);
    FindCharAfter(p, '.', s);
    assert token[..|h|] == h;
    assert token[|h| + 1..|h| + 1 + |p|] == p;
    assert token[|h| + 1 + |p| + 1..] == s;
  }

  /** Accepted exactly when secret and token are there, the token is genuine, its dates bracket the
      clock readings and the issuer is the required one -- whatever the table order. What is
      accepted is the identity in the payload. */
  lemma AcceptedIff(env: Env, token: string, secret: string, issuer: string, now: int, later: int,
                    order: seq<ClaimKey>, info: AuthInfo)
    requires TableOrder(order)
    ensures Outcome(env, token, secret, issuer, now, later, order) == (info, NoError) <==>
            && token != "" && secret != ""
            && exists h, p, s, header, payload ::
                 && Genuine(env, token, secret, h, p, s, header, payload)
                 && InTime(payload, now, later) && IssuedBy(payload, issuer) && info == Identity(payload)
  {
    hide InTime, StringList, StringClaim, CheckClaims, DecodePart, ParseClaims, SplitToken;
    if Outcome(env, token, secret, issuer, now, later, order) == (info, NoError) {
      var (h, p, s) := SplitToken(token).value;
      var jwt := DecodeToken(env, token).value;
      SplitTokenIs(token, h, p, s);
      ClaimsPassIffInTime(order, jwt.payload, now, later);
      IssuerClaim(jwt.payload, issuer);
      assert Genuine(env, token, secret, h, p, s, jwt.header, jwt.payload);
    }
    forall h, p, s, header, payload |
      && token != "" && secret != "" && Genuine(env, token, secret, h, p, s, header, payload)
      && InTime(payload, now, later) && IssuedBy(payload, issuer) && info == Identity(payload)
      ensures Outcome(env, token, secret, issuer, now, later, order) == (info, NoError)
    {
      SplitTokenIs(token, h, p, s);
      ClaimsPassIffInTime(order, payload, now, later);
      IssuerClaim(payload, issuer);
    }
  }

  lemma IssuerClaim(payload: Claims, issuer: string)
    ensures IssuedBy(payload, issuer) <==> issuer == "" || StringClaim(payload, "iss") == issuer
  {
  }

  // ------------------------------------------------ the identity, literally

  /** `at` lists the places of the strings in `items`, in order. */
  ghost predicate PlacesOfStrings(items: seq<Json>, at: seq<nat>) {
    && (forall k :: 0 <= k < |at| ==> at[k] < |items| && items[at[k]].Str?)
    && (forall k, l :: 0 <= k < l < |at| ==> at[k] < at[l])
    && (forall i: nat :: i < |items| && items[i].Str? ==> i in at)
  }

  ghost predicate FoundAt(items: seq<Json>, out: seq<string>, at: seq<nat>) {
    PlacesOfStrings(items, at) && |at| == |out| && forall k :: 0 <= k < |at| ==> items[at[k]] == Str(out[k])
  }

  /** `out` is the strings among `items`, each once and in order. */
  ghost predicate KeepsStrings(items: seq<Json>, out: seq<string>) {
    exists at :: FoundAt(items, out, at)
  }

  lemma LastPlace(items: seq<Json>, at: seq<nat>)
    requires items != [] && items[|items| - 1].Str? && PlacesOfStrings(items, at)
    ensures at != [] && at[|at| - 1] == |items| - 1
  {
    var n := |items| - 1;
    assert n in at;
    var k :| 0 <= k < |at| && at[k] == n;
    assert at[|at| - 1] <= n;
  }

  /** The places in one item less. */
  lemma PlacesBefore(items: seq<Json>, at: seq<nat>) returns (before: seq<nat>)
    requires items != [] && PlacesOfStrings(items, at)
    ensures PlacesOfStrings(items[..|items| - 1], before)
    ensures at == if items[|items| - 1].Str? then before + [|items| - 1] else before
  {
    var n := |items| - 1;
    if items[n].Str? {
      LastPlace(items, at);
      before := at[..|at| - 1];
      assert at == before + [n];
      forall i: nat | i < n && items[..n][i].Str? ensures i in before {
        assert items[i].Str? && i in at && i != n;
      }
    } else {
      before := at;
      forall i: nat | i < n && items[..n][i].Str? ensures i in before {
        assert items[i].Str?;
      }
    }
  }

  lemma PlacesAfter(items: seq<Json>, before: seq<nat>)
    requires items != [] && PlacesOfStrings(items[..|items| - 1], before)
    ensures PlacesOfStrings(items, if items[|items| - 1].Str? then before + [|items| - 1] else before)
  {
    var n := |items| - 1;
    var at := if items[n].Str? then before + [n] else before;
    assert forall k :: 0 <= k < |before| ==> items[..n][before[k]] == items[before[k]];
    forall i: nat | i < |items| && items[i].Str? ensures i in at {
      if i < n {
        assert items[..n][i].Str?;
        assert i in before;
      }
    }
  }

  lemma {:induction false} StringsAtPlaces(items: seq<Json>, at: seq<nat>)
    requires PlacesOfStrings(items, at)
    ensures |StringsOf(items)| == |at| && forall k :: 0 <= k < |at| ==> items[at[k]] == Str(StringsOf(items)[k])
  {
    hide PlacesOfStrings;
    if items == [] {
      NoPlaces(at);
    } else {
      var before := PlacesBefore(items, at);
      PlacesInside(items[..|items| - 1], before);
      StringsAtPlaces(items[..|items| - 1], before);
    }
  }

  lemma NoPlaces(at: seq<nat>)
    requires PlacesOfStrings([], at)
    ensures at == []
  {
    assert forall x: nat :: x !in at;
    assert multiset(at) == multiset{};
  }

  lemma PlacesInside(items: seq<Json>, at: seq<nat>)
    requires PlacesOfStrings(items, at)
    ensures forall k :: 0 <= k < |at| ==> at[k] < |items|
  {
  }

  lemma NoneToPlace()
    ensures PlacesOfStrings([], [])
  {
  }

  lemma {:induction false} SomePlaces(items: seq<Json>) returns (at: seq<nat>)
    ensures PlacesOfStrings(items, at)
  {
    hide PlacesOfStrings;
    if items == [] {
      at := [];
      NoneToPlace();
    } else {
      var before := SomePlaces(items[..|items| - 1]);
      PlacesAfter(items, before);
      at := if items[|items| - 1].Str? then before + [|items| - 1] else before;
    }
  }

  /** The strings of an array are the one list that keeps them. */
  lemma StringsOfIs(items: seq<Json>, out: seq<string>)
    ensures KeepsStrings(items, out) <==> out == StringsOf(items)
  {
    hide StringsOf, FoundAt;
    var at := SomePlaces(items);
    FoundIs(items, StringsOf(items), at);
    forall x ensures FoundAt(items, out, x) ==> out == StringsOf(items) {
      if FoundAt(items, out, x) {
        FoundHasPlaces(items, out, x);
        FoundIs(items, out, x);
      }
    }
  }

  lemma FoundHasPlaces(items: seq<Json>, out: seq<string>, at: seq<nat>)
    requires FoundAt(items, out, at)
    ensures PlacesOfStrings(items, at)
  {
  }

  lemma FoundIs(items: seq<Json>, out: seq<string>, at: seq<nat>)
    requires PlacesOfStrings(items, at)
    ensures FoundAt(items, out, at) <==> out == StringsOf(items)
  {
    hide StringsOf;
    StringsAtPlaces(items, at);
    if FoundAt(items, out, at) {
      forall k | 0 <= k < |out| ensures out[k] == StringsOf(items)[k] {
        assert items[at[k]] == Str(out[k]);
      }
    }
  }

  /** A claim read as a list: the strings of an array, in order and with what is not a string left out; a
      string as the list of it; and nothing from any other claim or none. */
  ghost predicate ListFrom(payload: Claims, name: string, out: seq<string>) {
    if name in payload && payload[name].Arr? then KeepsStrings(payload[name].items, out)
    else out == (if name in payload && payload[name].Str? then [payload[name].s] else [])
  }

  lemma StringListIs(payload: Claims, name: string, out: seq<string>)
    ensures ListFrom(payload, name, out) <==> out == StringList(payload, name)
  {
    hide StringsOf, KeepsStrings;
    if name in payload && payload[name].Arr? {
      StringsOfIs(payload[name].items, out);
    }
  }

  /** The identity a payload carries. */
  ghost predicate Carries(payload: Claims, info: AuthInfo) {
    && info.ok
    && info.sub == (if "sub" in payload && payload["sub"].Str? then payload["sub"].s else "")
    && ListFrom(payload, "roles", info.roles) && ListFrom(payload, "permissions", info.permissions)
  }

  lemma IdentityIs(payload: Claims, info: AuthInfo)
    ensures Carries(payload, info) <==> info == Identity(payload)
  {
    hide StringList, ListFrom;
    StringListIs(payload, "roles", info.roles);
    StringListIs(payload, "permissions", info.permissions);
  }

  /** An array of nothing but strings is read as exactly these. */
  lemma AllStringsKept(v: seq<string>)
    ensures StringsOf(seq(|v|, i requires 0 <= i < |v| => Str(v[i]))) == v
  {
    var items := seq(|v|, i requires 0 <= i < |v| => Str(v[i]));
    var all: seq<nat> := seq(|v|, i requires 0 <= i < |v| => i);
    forall i: nat | i < |items| ensures i in all { assert all[i] == i; }
    StringsAtPlaces(items, all);
    forall k | 0 <= k < |v| ensures StringsOf(items)[k] == v[k] {
      assert items[all[k]] == Str(v[k]);
    }
  }

  /** What verifyJwt makes of a token: accepted, as the identity its payload carries and no other, exactly
      when it is genuine, in time and from the required issuer. */
  lemma AcceptedCarries(env: Env, token: string, secret: string, issuer: string, now: int, later: int,
                        order: seq<ClaimKey>, info: AuthInfo)
    requires TableOrder(order)
    ensures Outcome(env, token, secret, issuer, now, later, order) == (info, NoError) <==>
            && token != "" && secret != ""
            && exists h, p, s, header, payload ::
                 && Genuine(env, token, secret, h, p, s, header, payload)
                 && InTime(payload, now, later) && IssuedBy(payload, issuer) && Carries(payload, info)
  {
    hide Outcome, Genuine, InTime, IssuedBy, Carries, Identity;
    AcceptedIff(env, token, secret, issuer, now, later, order, info);
    forall payload ensures Carries(payload, info) <==> info == Identity(payload) { IdentityIs(payload, info); }
  }

  // --------------------------------------------- which errors depend on order

  lemma GenuineIsVerified(env: Env, token: string, secret: string, h: string, p: string, s: string,
                          header: Claims, payload: Claims, now: int, order: seq<ClaimKey>)
    requires Genuine(env, token, secret, h, p, s, header, payload)
    ensures DecodeToken(env, token) == Ok(Decoded(h, p, DecodePart(s).value, header, payload))
    ensures Verify(env, secret, DecodeToken(env, token).value, now, order) == CheckClaims(order, payload, now)
  {
    hide DecodePart, ParseClaims, SplitToken, CheckClaims;
    SplitTokenIs(token, h, p, s);
  }

  /** Only a genuine token gets as far as the claims. */
  lemma OrderNeedsGenuine(env: Env, token: string, secret: string, now: int, o: seq<ClaimKey>, o': seq<ClaimKey>)
    returns (h: string, p: string, s: string)
    requires DecodeToken(env, token).Ok?
    requires var jwt := DecodeToken(env, token).value;
             Verify(env, secret, jwt, now, o) != Verify(env, secret, jwt, now, o')
    ensures var jwt := DecodeToken(env, token).value;
            && Genuine(env, token, secret, h, p, s, jwt.header, jwt.payload)
            && CheckClaims(o, jwt.payload, now) != CheckClaims(o', jwt.payload, now)
  {
    hide DecodePart, ParseClaims, SplitToken, CheckClaims;
    h, p, s := SplitToken(token).value.0, SplitToken(token).value.1, SplitToken(token).value.2;
    SplitTokenIs(token, h, p, s);
  }

  lemma MixedNeverPass(payload: Claims, now: int, order: seq<ClaimKey>)
    requires TableOrder(order) && MixedComplaints(payload, now)
    ensures CheckClaims(order, payload, now) in {Fail(Expired), Fail(BadCast)}
  {
    hide CheckClaim, CheckClaims;
    ClaimsPassIffAll(order, payload, now);
    var a: ClaimKey :| CheckClaim(a, payload, now) == Fail(Expired);
    assert a in order by { match a { case Exp => case Iat => case Nbf => } }
    forall k: ClaimKey ensures CheckClaim(k, payload, now) in {Pass, Fail(Expired), Fail(BadCast)} {
      ComplaintKinds(k, payload, now);
    }
  }

  /** Two table orders under which different errors are reported. */
  ghost predicate ReportsDiffer(env: Env, token: string, secret: string, issuer: string, now: int, later: int,
                                o: seq<ClaimKey>, o': seq<ClaimKey>)
  {
    && TableOrder(o) && TableOrder(o')
    && Outcome(env, token, secret, issuer, now, later, o).1 != Outcome(env, token, secret, issuer, now, later, o').1
  }

  /** The table order shows in the error `verifyJwt` reports exactly when the token is genuine and one of
      its dates is out of time while another is not an integer. */
  lemma ErrorOrderShowsIff(env: Env, token: string, secret: string, issuer: string, now: int, later: int)
    ensures (exists o, o' :: ReportsDiffer(env, token, secret, issuer, now, later, o, o'))
            <==>
            && token != "" && secret != ""
            && exists h, p, s, header, payload ::
                 Genuine(env, token, secret, h, p, s, header, payload) && MixedComplaints(payload, now)
  {
    hide Genuine, MixedComplaints, DecodeToken, Verify, CheckClaims, StillFresh, StringClaim, StringList;
    if token != "" && secret != "" {
      forall h, p, s, header, payload |
        Genuine(env, token, secret, h, p, s, header, payload) && MixedComplaints(payload, now)
        ensures exists o, o' :: ReportsDiffer(env, token, secret, issuer, now, later, o, o')
      {
        TableOrderShowsIff(payload, now);
        var o, o' :| TableOrder(o) && TableOrder(o') && CheckClaims(o, payload, now) != CheckClaims(o', payload, now);
        MixedNeverPass(payload, now, o);
        MixedNeverPass(payload, now, o');
        GenuineIsVerified(env, token, secret, h, p, s, header, payload, now, o);
        GenuineIsVerified(env, token, secret, h, p, s, header, payload, now, o');
        assert ReportsDiffer(env, token, secret, issuer, now, later, o, o');
      }
    }
    forall o, o' | ReportsDiffer(env, token, secret, issuer, now, later, o, o')
      ensures && token != "" && secret != ""
              && exists h, p, s, header, payload ::
                   Genuine(env, token, secret, h, p, s, header, payload) && MixedComplaints(payload, now)
    {
      var jwt := DecodeToken(env, token).value;
      var h, p, s := OrderNeedsGenuine(env, token, secret, now, o, o');
      TableOrderShowsIff(jwt.payload, now);
    }
  }

  /** Whether a token is accepted, and as whom, never depends on it. */
  lemma IdentityIgnoresOrder(env: Env, token: string, secret: string, issuer: string, now: int, later: int,
                             o: seq<ClaimKey>, o': seq<ClaimKey>)
    requires TableOrder(o) && TableOrder(o')
    ensures Outcome(env, token, secret, issuer, now, later, o).0
            == Outcome(env, token, secret, issuer, now, later, o').0
  {
    hide CheckClaims, DecodeToken, StringClaim, StringList, MacCheck;
    if token != "" && secret != "" && DecodeToken(env, token).Ok? {
      ClaimsPassIffAll(o, DecodeToken(env, token).value.payload, now);
      ClaimsPassIffAll(o', DecodeToken(env, token).value.payload, now);
      forall k: ClaimKey ensures k in o && k in o' { match k { case Exp => case Iat => case Nbf => } }
    }
  }

  // ------------------------------------------------------- what is reported

  /** Every date of a payload that is there is an integer. */
  ghost predicate DatesAreIntegers(payload: Claims) {
    && ("exp" in payload ==> payload["exp"].Int?)
    && ("iat" in payload ==> payload["iat"].Int?)
    && ("nbf" in payload ==> payload["nbf"].Int?)
  }

  lemma ComplaintIs(order: seq<ClaimKey>, payload: Claims, now: int)
    requires TableOrder(order) && !InTime(payload, now, now)
    ensures CheckClaims(order, payload, now).Fail?
    ensures DatesAreIntegers(payload) ==> CheckClaims(order, payload, now) == Fail(Expired)
    ensures CheckClaims(order, payload, now) in {Fail(Expired), Fail(BadCast)}
  {
    hide CheckClaims;
    ClaimsPassIffAll(order, payload, now);
    assert Exp.Name() == "exp" && Iat.Name() == "iat" && Nbf.Name() == "nbf";
    assert Exp in order && Iat in order && Nbf in order;
  }

  /** What verifyJwt reports on a genuine token: nothing when it is in time and from the required issuer; a
      wrong issuer; an expiry between its two looks at the clock; and on the first look, a date out of time
      or -- when some date is not an integer -- perhaps that. */
  lemma ReportOfGenuine(env: Env, token: string, secret: string, issuer: string, now: int, later: int,
                        order: seq<ClaimKey>, h: string, p: string, s: string, header: Claims, payload: Claims)
    requires TableOrder(order) && token != "" && secret != ""
    requires Genuine(env, token, secret, h, p, s, header, payload)
    ensures var error := Outcome(env, token, secret, issuer, now, later, order).1;
            && (InTime(payload, now, later) && IssuedBy(payload, issuer) <==> error == NoError)
            && (InTime(payload, now, later) && !IssuedBy(payload, issuer) <==> error == IssuerMismatch)
            && (InTime(payload, now, now) && !InTime(payload, now, later) <==> error == TokenExpired)
            && (!InTime(payload, now, now) ==> error in {VerificationFailed(Expired), DecodeError(BadCast)})
            && (!InTime(payload, now, now) && DatesAreIntegers(payload) ==> error == VerificationFailed(Expired))
  {
    hide Genuine, DecodeToken, Verify, CheckClaims, StringClaim, StringList;
    GenuineIsVerified(env, token, secret, h, p, s, header, payload, now, order);
    ClaimsPassIffInTime(order, payload, now, now);
    ClaimsPassIffInTime(order, payload, now, later);
    IssuerClaim(payload, issuer);
    if !InTime(payload, now, now) { ComplaintIs(order, payload, now); }
  }

  /** What it reports on others: a token without two dots, one under another algorithm or none, and one
      whose MAC cannot be computed or is not that of its own first two parts. */
  lemma ReportOfOthers(env: Env, token: string, secret: string, issuer: string, now: int, later: int,
                       order: seq<ClaimKey>, h: string, p: string, s: string, header: Claims, payload: Claims)
    requires token != "" && secret != ""
    ensures (!exists a, b, c :: '.' !in a && '.' !in b && token == a + "." + b + "." + c) ==>
              Outcome(env, token, secret, issuer, now, later, order).1 == DecodeError(InvalidToken)
    ensures && '.' !in h && '.' !in p && token == h + "." + p + "." + s
            && DecodePart(h).Ok? && ParseClaims(env, DecodePart(h).value) == Ok(header)
            && DecodePart(p).Ok? && ParseClaims(env, DecodePart(p).value) == Ok(payload) && DecodePart(s).Ok? ==>
              var error := Outcome(env, token, secret, issuer, now, later, order).1;
              && ("alg" !in header ==> error == DecodeError(ClaimNotPresent))
              && ("alg" in header && !header["alg"].Str? ==> error == DecodeError(BadCast))
              && ("alg" in header && header["alg"].Str? && header["alg"].s != "HS256" ==>
                    error == VerificationFailed(WrongAlgorithm))
              && ("alg" in header && header["alg"] == Str("HS256") ==>
                    var mac := env.hmac(secret, h + "." + p);
                    && (mac.None? ==> error == DecodeError(HmacFailed))
                    && (mac.Some? && mac.value != DecodePart(s).value ==> error == DecodeError(InvalidSignature)))
  {
    hide DecodePart, ParseClaims, SplitToken, CheckClaims, StillFresh, StringClaim, StringList;
    SplitTokenIs(token, h, p, s);
    if SplitToken(token).Some? {
      var (a, b, c) := SplitToken(token).value;
      SplitTokenIs(token, a, b, c);
    }
  }

  /** A token of three parts that cannot be read: the first part that does not decode is reported, and when
      all do, the first of header and payload that is not a JSON object. */
  lemma ReportOfUnreadable(env: Env, token: string, secret: string, issuer: string, now: int, later: int,
                           order: seq<ClaimKey>, h: string, p: string, s: string)
    requires token != "" && secret != ""
    requires '.' !in h && '.' !in p && token == h + "." + p + "." + s
    ensures var error := Outcome(env, token, secret, issuer, now, later, order).1;
            var H, P, S := DecodePart(h), DecodePart(p), DecodePart(s);
            && (H.Err? ==> error == DecodeError(H.error))
            && (H.Ok? && P.Err? ==> error == DecodeError(P.error))
            && (H.Ok? && P.Ok? && S.Err? ==> error == DecodeError(S.error))
            && (H.Ok? && P.Ok? && S.Ok? ==>
                  var x, y := env.parse(H.value), env.parse(P.value);
                  && (x.None? ==> error == DecodeError(InvalidJson))
                  && (x.Some? && !x.value.Obj? ==> error == DecodeError(BadCast))
                  && (x.Some? && x.value.Obj? && y.None? ==> error == DecodeError(InvalidJson))
                  && (x.Some? && x.value.Obj? && y.Some? && !y.value.Obj? ==> error == DecodeError(BadCast)))
  {
    hide SplitToken, CheckClaims, StillFresh, StringClaim, StringList, Base64.Decode, Base64.Pad;
    SplitTokenIs(token, h, p, s);
  }
}
