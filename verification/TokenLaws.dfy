/** Signing then verifying, and when a token is valid. */
module TokenLaws {
  import opened Wrappers
  import opened Text
  import opened Base64
  import opened Base64Laws
  import opened Jwt
  import opened Auth
  import opened CheckToken

  /** Neither the separator nor the start of a fill is a symbol. */
  lemma NoDotSymbol()
    ensures '.' !in BASE64URL.data
  {
    hide Rank;
    if '.' in BASE64URL.data {
      SymbolOfRank(BASE64URL, '.');
      RankOfDot();
      LastSymbol();
    }
  }

  lemma NoSpaceSymbol(c: char)
    requires IsSpace(c)
    ensures c !in BASE64URL.data
  {
    hide Rank;
    if c in BASE64URL.data {
      SymbolOfRank(BASE64URL, c);
      RankOfSpace(c);
      LastSymbol();
    }
  }

  lemma RankOfSpace(c: char)
    requires IsSpace(c)
    ensures Rank(c) == 63
  {
  }

  /** A part has no white space, and four characters for every three bytes. */
  lemma PartText(x: Bytes)
    ensures forall i :: 0 <= i < |Unpadded(x)| ==> !IsSpace(Unpadded(x)[i])
    ensures |Unpadded(x)| <= |x| / 3 * 4 + 3
  {
    hide Symbols, Encode, TrimFill, IsSpace;
    TrimEncode(BASE64URL, x);
    SymbolsLength(BASE64URL, x);
    forall i | 0 <= i < |Unpadded(x)| ensures !IsSpace(Unpadded(x)[i]) {
      if IsSpace(Unpadded(x)[i]) { NoSpaceSymbol(Unpadded(x)[i]); }
    }
  }

  /** A signed token is one word. */
  lemma TokenIsWord(env: Env, header: Claims, payload: Claims, secret: string)
    requires SignedToken(env, header, payload, secret).Some?
    ensures IsWord(SignedToken(env, header, payload, secret).value)
  {
    hide Unpadded;
    var h := Unpadded(env.serialize(Obj(SignedHeader(header))));
    var p := Unpadded(env.serialize(Obj(payload)));
    var mac := env.hmac(secret, h + "." + p).value;
    PartText(env.serialize(Obj(SignedHeader(header))));
    PartText(env.serialize(Obj(payload)));
    PartText(mac);
    WordsJoin(h, p, Unpadded(mac));
  }

  lemma WordsJoin(h: string, p: string, s: string)
    requires forall c :: c in h || c in p || c in s ==> !IsSpace(c)
    ensures IsWord(h + "." + p + "." + s)
  {
  }

  lemma RankOfDot()
    ensures Rank('.') == 63
  {
  }

  lemma LastSymbol()
    ensures BASE64URL.data[63] == '_'
  {
    TableEntry("-_", 63);
    assert |LETTERS_AND_DIGITS| == 62;
  }

  /** The text of a part has no dot and decodes to the bytes it was made from. */
  lemma PartReads(x: Bytes)
    ensures DecodePart(Unpadded(x)) == Ok(x)
    ensures '.' !in Unpadded(x)
  {
    hide Symbols, Encode, Pad, Decode, TrimFill;
    PadTrimEncode(BASE64URL, x);
    TrimEncode(BASE64URL, x);
    SymbolsLength(BASE64URL, x);
    NoDotSymbol();
  }

  /** JSON text that reads back as what was written. */
  ghost predicate ReadsBack(env: Env, claims: Claims) {
    env.parse(env.serialize(Obj(claims))) == Some(Obj(claims))
  }

  /** What decoding a signed token gives: the original claims, the MAC, the same signing input. */
  lemma SignedTokenDecodes(env: Env, header: Claims, payload: Claims, secret: string)
    requires SignedToken(env, header, payload, secret).Some?
    requires ReadsBack(env, SignedHeader(header)) && ReadsBack(env, payload)
    ensures var token := SignedToken(env, header, payload, secret).value;
            var input := SigningInput(env, header, payload);
            && DecodeToken(env, token).Ok?
            && var jwt := DecodeToken(env, token).value;
            && jwt.header == SignedHeader(header) && jwt.payload == payload
            && jwt.headerText + "." + jwt.payloadText == input
            && env.hmac(secret, input) == Some(jwt.signature)
            && SplitToken(token) == Some((jwt.headerText, jwt.payloadText, Unpadded(jwt.signature)))
  {
    hide DecodePart, Unpadded, SplitToken;
    var h := Unpadded(env.serialize(Obj(SignedHeader(header))));
    var p := Unpadded(env.serialize(Obj(payload)));
    var mac := env.hmac(secret, h + "." + p).value;
    PartReads(env.serialize(Obj(SignedHeader(header))));
    PartReads(env.serialize(Obj(payload)));
    PartReads(mac);
    SplitOfParts(h, p, Unpadded(mac));
  }

  /** Sign then verify: a freshly built token is accepted exactly when its own claims allow it.
      Without an override of "alg" the algorithm is always the right one. */
  lemma SignThenVerify(env: Env, header: Claims, payload: Claims, secret: string,
                       issuer: string, now: int, later: int, order: seq<ClaimKey>)
    requires TableOrder(order)
    requires SignedToken(env, header, payload, secret).Some?
    requires ReadsBack(env, SignedHeader(header)) && ReadsBack(env, payload)
    ensures var token := SignedToken(env, header, payload, secret).value;
            var (info, error) := Outcome(env, token, secret, issuer, now, later, order);
            && (error == NoError <==>
                && secret != "" && ("alg" in header ==> header["alg"] == Str("HS256"))
                && InTime(payload, now, later) && IssuedBy(payload, issuer))
            && (error == NoError ==> info == Identity(payload))
  {
    hide DecodeToken, SignedToken, CheckClaims, InTime, StringList, StringClaim, SigningInput, SplitToken, Verify,
         ReadsBack;
    var token := SignedToken(env, header, payload, secret).value;
    SignedTokenDecodes(env, header, payload, secret);
    VerifyPassesIff(env, secret, DecodeToken(env, token).value, now, order);
    ClaimsPassIffInTime(order, payload, now, later);
    IssuerClaim(payload, issuer);
    SplitNotEmpty();
  }

  lemma VerifyPassesIff(env: Env, secret: string, jwt: Decoded, now: int, order: seq<ClaimKey>)
    ensures Verify(env, secret, jwt, now, order).Pass? <==>
            && "alg" in jwt.header && jwt.header["alg"] == Str(HS256)
            && env.hmac(secret, jwt.headerText + "." + jwt.payloadText) == Some(jwt.signature)
            && CheckClaims(order, jwt.payload, now).Pass?
  {
    hide CheckClaims;
  }

  lemma SplitNotEmpty()
    ensures SplitToken("") == None
  {
  }

  /** The MAC of another secret, if it differs, does not verify. */
  lemma WrongSecretRefused(env: Env, header: Claims, payload: Claims, secret: string, other: string,
                           issuer: string, now: int, later: int, order: seq<ClaimKey>)
    requires TableOrder(order)
    requires SignedToken(env, header, payload, secret).Some?
    requires ReadsBack(env, SignedHeader(header)) && ReadsBack(env, payload)
    requires env.hmac(other, SigningInput(env, header, payload)) != env.hmac(secret, SigningInput(env, header, payload))
    ensures Outcome(env, SignedToken(env, header, payload, secret).value, other, issuer, now, later, order).1 != NoError
  {
    hide DecodeToken, SignedToken, Outcome, Verify, SigningInput, SplitToken, ReadsBack;
    var token := SignedToken(env, header, payload, secret).value;
    SignedTokenDecodes(env, header, payload, secret);
    var jwt := DecodeToken(env, token).value;
    if Outcome(env, token, other, issuer, now, later, order).1 == NoError {
      AcceptanceNeedsMac(env, token, other, issuer, now, later, order);
    }
  }

  /** Nothing is accepted without the MAC of its own signing input. */
  lemma AcceptanceNeedsMac(env: Env, token: string, secret: string, issuer: string, now: int, later: int,
                           order: seq<ClaimKey>)
    requires Outcome(env, token, secret, issuer, now, later, order).1 == NoError
    ensures DecodeToken(env, token).Ok?
    ensures var jwt := DecodeToken(env, token).value;
            env.hmac(secret, jwt.headerText + "." + jwt.payloadText) == Some(jwt.signature)
  {
    hide DecodeToken, CheckClaims, StringList, StringClaim, StillFresh;
  }

  // ------------------------------------------------------ order of complaints

  /** A payload that has expired and whose "iat" is not a date. */
  const MIXED_DATES: Claims := map["exp" := Int(0), "iat" := Str("now")]

  lemma MixedDates(now: int)
    requires now > 0
    ensures CheckClaim(Exp, MIXED_DATES, now) == Fail(Expired) && CheckClaim(Iat, MIXED_DATES, now) == Fail(BadCast)
  {
    assert Exp.Name() == "exp" && Iat.Name() == "iat";
    assert "exp"[0] != "iat"[0];
  }

  /** Signed like any other token, it is reported as expired under one order of the claim table and as
      undecodable under another. */
  lemma OrderShowsInReport(env: Env, secret: string, issuer: string, now: int, later: int)
    requires secret != "" && now > 0
    requires SignedToken(env, map[], MIXED_DATES, secret).Some?
    requires ReadsBack(env, SignedHeader(map[])) && ReadsBack(env, MIXED_DATES)
    ensures var token := SignedToken(env, map[], MIXED_DATES, secret).value;
            && TableOrder([Exp, Iat, Nbf]) && TableOrder([Iat, Exp, Nbf])
            && Outcome(env, token, secret, issuer, now, later, [Exp, Iat, Nbf]).1 == VerificationFailed(Expired)
            && Outcome(env, token, secret, issuer, now, later, [Iat, Exp, Nbf]).1 == DecodeError(BadCast)
  {
    hide Outcome, SignedToken, CheckClaims, CheckClaim, ReadsBack, MIXED_DATES;
    MixedDates(now);
    ThreeKeys([Exp, Iat, Nbf]);
    ThreeKeys([Iat, Exp, Nbf]);
    FirstComplaint(Exp, [Iat, Nbf], MIXED_DATES, now);
    FirstComplaint(Iat, [Exp, Nbf], MIXED_DATES, now);
    assert [Exp] + [Iat, Nbf] == [Exp, Iat, Nbf] && [Iat] + [Exp, Nbf] == [Iat, Exp, Nbf];
    ComplaintReported(env, MIXED_DATES, secret, issuer, now, later, [Exp, Iat, Nbf]);
    ComplaintReported(env, MIXED_DATES, secret, issuer, now, later, [Iat, Exp, Nbf]);
  }

  /** The first complaint about the claims of a signed token is the one reported. */
  lemma ComplaintReported(env: Env, payload: Claims, secret: string, issuer: string, now: int, later: int,
                          order: seq<ClaimKey>)
    requires secret != "" && SignedToken(env, map[], payload, secret).Some?
    requires ReadsBack(env, SignedHeader(map[])) && ReadsBack(env, payload)
    requires CheckClaims(order, payload, now).Fail?
    ensures Outcome(env, SignedToken(env, map[], payload, secret).value, secret, issuer, now, later, order).1
            == Caught(CheckClaims(order, payload, now).e)
  {
    hide DecodeToken, SignedToken, CheckClaims, StringList, StringClaim, SigningInput, SplitToken, ReadsBack,
         StillFresh;
    SignedTokenDecodes(env, map[], payload, secret);
    SplitNotEmpty();
  }

  // ---------------------------------------------------------- time window

  /** A date that is absent, or an integer no later than `e`. */
  ghost predicate NotAfter(payload: Claims, name: string, e: int) {
    name in payload ==> payload[name].Int? && payload[name].i <= e
  }

  /** A genuine token from the required issuer is accepted exactly in its time window. */
  lemma GenuineAcceptedIff(env: Env, token: string, secret: string, issuer: string, now: int, later: int,
                           order: seq<ClaimKey>, h: string, p: string, s: string, header: Claims, payload: Claims)
    requires TableOrder(order) && secret != ""
    requires Genuine(env, token, secret, h, p, s, header, payload) && IssuedBy(payload, issuer)
    ensures Outcome(env, token, secret, issuer, now, later, order).1 == NoError <==> InTime(payload, now, later)
  {
    hide InTime, Outcome, DecodePart, ParseClaims, IssuedBy, Identity;
    var (info, error) := Outcome(env, token, secret, issuer, now, later, order);
    AcceptedIff(env, token, secret, issuer, now, later, order, info);
    AcceptedIff(env, token, secret, issuer, now, later, order, Identity(payload));
    SplitTokenIs(token, h, p, s);
    forall h', p', s', header', payload' | Genuine(env, token, secret, h', p', s', header', payload')
      ensures payload' == payload
    {
      SplitTokenIs(token, h', p', s');
    }
  }

  /** The instant of expiry still counts, and is the last one that does: when the clock equals "exp" a
      genuine token is accepted unless it is not valid yet, and on any later reading it is refused. */
  lemma ExpiryIsInclusive(env: Env, token: string, secret: string, issuer: string, order: seq<ClaimKey>,
                          h: string, p: string, s: string, header: Claims, payload: Claims, e: int)
    requires TableOrder(order) && secret != ""
    requires Genuine(env, token, secret, h, p, s, header, payload) && IssuedBy(payload, issuer)
    requires "exp" in payload && payload["exp"] == Int(e)
    ensures Outcome(env, token, secret, issuer, e * 1_000_000_000, e * 1_000_000_000, order).1 == NoError <==>
            NotAfter(payload, "iat", e) && NotAfter(payload, "nbf", e)
    ensures forall now, later :: now > e * 1_000_000_000 || later > e * 1_000_000_000 ==>
              Outcome(env, token, secret, issuer, now, later, order).1 != NoError
  {
    hide Outcome, Genuine, IssuedBy;
    forall now, later
      ensures Outcome(env, token, secret, issuer, now, later, order).1 == NoError <==> InTime(payload, now, later)
    {
      GenuineAcceptedIff(env, token, secret, issuer, now, later, order, h, p, s, header, payload);
    }
  }

  /** The clock readings that accept a token form an interval, and the identity is the same all over it. */
  lemma AcceptanceIsInterval(env: Env, token: string, secret: string, issuer: string,
                             a: int, a': int, b: int, b': int, c: int, c': int,
                             o: seq<ClaimKey>, o': seq<ClaimKey>, o'': seq<ClaimKey>, info: AuthInfo, info': AuthInfo)
    requires TableOrder(o) && TableOrder(o') && TableOrder(o'')
    requires a <= b <= c && a' <= b' <= c'
    requires Outcome(env, token, secret, issuer, a, a', o) == (info, NoError)
    requires Outcome(env, token, secret, issuer, c, c', o'') == (info', NoError)
    ensures info == info' && Outcome(env, token, secret, issuer, b, b', o') == (info, NoError)
  {
    hide DecodeToken, CheckClaims, StringList, StringClaim, StillFresh, MacCheck;
    var payload := DecodeToken(env, token).value.payload;
    ClaimsPassIffInTime(o, payload, a, a');
    ClaimsPassIffInTime(o', payload, b, b');
    ClaimsPassIffInTime(o'', payload, c, c');
  }
}
