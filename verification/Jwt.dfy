/**
 The parts of jwt-cpp the gateway uses: compact tokens, HS256 and the verifier.
 JSON and HMAC are not modelled inside: they are the three functions of an `Env`,
 about which nothing is taken for granted. Exceptions are the values of `Exception`.
 Clock readings count nanoseconds; dates in claims count seconds.
 */
module Jwt {
  import opened Wrappers
  import opened Text
  import opened Base64

  datatype Json =
    | Null
    | Bool(b: bool)
    | Int(i: int)
    | Number(x: real)
    | Str(s: string)
    | Arr(items: seq<Json>)
    | Obj(fields: map<string, Json>)

  type Claims = map<string, Json>

  datatype Env = Env(
    parse: Bytes -> Option<Json>,
    serialize: Json -> Bytes,
    hmac: (string, string) -> Option<Bytes>)

  /** `token_verification_error` codes are told apart from every other exception by the caller. */
  datatype Exception =
    | WrongAlgorithm
    | Expired
    | InvalidToken
    | BadBase64(e: DecodeError)
    | InvalidJson
    | BadCast
    | ClaimNotPresent
    | InvalidSignature
    | HmacFailed

  const HS256 := "HS256"
  const TICKS := 1_000_000_000

  // ------------------------------------------------------------ compact form

  /** The text of a part, base64url without fill. */
  function Unpadded(x: Bytes): string {
    TrimFill(BASE64URL, Encode(BASE64URL, x))
  }

  ghost function DecodePart(text: string): Result<Bytes, Exception> {
    match Decode(BASE64URL, Pad(BASE64URL, text))
    case Err(e) => Err(BadBase64(e))
    case Ok(x) => Ok(x)
  }

  /** Header, payload and signature text: split at the first two dots. */
  function SplitToken(token: string): Option<(string, string, string)> {
    match Find(token, ".", 0)
    case None => None
    case Some(a) =>
      match Find(token, ".", a + 1)
      case None => None
      case Some(b) => Some((token[..a], token[a + 1..b], token[b + 1..]))
  }

  datatype Decoded = Decoded(
    headerText: string, payloadText: string, signature: Bytes, header: Claims, payload: Claims)

  function ParseClaims(env: Env, x: Bytes): Result<Claims, Exception> {
    match env.parse(x)
    case None => Err(InvalidJson)
    case Some(Obj(claims)) => Ok(claims)
    case Some(_) => Err(BadCast)
  }

  ghost function DecodeToken(env: Env, token: string): Result<Decoded, Exception> {
    match SplitToken(token)
    case None => Err(InvalidToken)
    case Some((h, p, s)) =>
      match DecodePart(h)
      case Err(e) => Err(e)
      case Ok(header) =>
        match DecodePart(p)
        case Err(e) => Err(e)
        case Ok(payload) =>
          match DecodePart(s)
          case Err(e) => Err(e)
          case Ok(signature) =>
            match ParseClaims(env, header)
            case Err(e) => Err(e)
            case Ok(headerClaims) =>
              match ParseClaims(env, payload)
              case Err(e) => Err(e)
              case Ok(payloadClaims) => Ok(Decoded(h, p, signature, headerClaims, payloadClaims))
  }

  method DecodePartText(text: string) returns (r: Result<Bytes, Exception>)
    ensures r == DecodePart(text)
  {
    var padded := PadText(BASE64URL, text);
    var x := DecodeText(BASE64URL, padded);
    match x {
      case Err(e) => r := Err(BadBase64(e));
      case Ok(v) => r := Ok(v);
    }
  }

  /** The `decoded_jwt` constructor. */
  method DecodeJwt(env: Env, token: string) returns (r: Result<Decoded, Exception>)
    ensures r == DecodeToken(env, token)
  {
    hide DecodePart, ParseClaims;
    var headerEnd := Find(token, ".", 0);
    if headerEnd.None? { return Err(InvalidToken); }
    var payloadEnd := Find(token, ".", headerEnd.value + 1);
    if payloadEnd.None? { return Err(InvalidToken); }
    var headerText := token[..headerEnd.value];
    var payloadText := token[headerEnd.value + 1..payloadEnd.value];
    var signatureText := token[payloadEnd.value + 1..];
    var header := DecodePartText(headerText);
    if header.Err? { return Err(header.error); }
    var payload := DecodePartText(payloadText);
    if payload.Err? { return Err(payload.error); }
    var signature := DecodePartText(signatureText);
    if signature.Err? { return Err(signature.error); }
    var headerClaims := ParseClaims(env, header.value);
    if headerClaims.Err? { return Err(headerClaims.error); }
    var payloadClaims := ParseClaims(env, payload.value);
    if payloadClaims.Err? { return Err(payloadClaims.error); }
    return Ok(Decoded(headerText, payloadText, signature.value, headerClaims.value, payloadClaims.value));
  }

  // ----------------------------------------------------------------- builder

  /** The header a token is signed with: "alg" is the algorithm's name unless it was set. */
  function SignedHeader(header: Claims): Claims {
    if "alg" in header then header else header["alg" := Str(HS256)]
  }

  function SigningInput(env: Env, header: Claims, payload: Claims): string {
    Unpadded(env.serialize(Obj(SignedHeader(header)))) + "." + Unpadded(env.serialize(Obj(payload)))
  }

  /** The token, or None where the MAC cannot be computed. */
  function SignedToken(env: Env, header: Claims, payload: Claims, secret: string): Option<string> {
    var input := SigningInput(env, header, payload);
    match env.hmac(secret, input)
    case None => None
    case Some(mac) => Some(input + "." + Unpadded(mac))
  }

  class Builder {
    var headerClaims: Claims
    var payloadClaims: Claims

    constructor ()
      ensures headerClaims == map[] && payloadClaims == map[]
    {
      headerClaims, payloadClaims := map[], map[];
    }

    method SetHeaderClaim(id: string, c: Json)
      modifies this`headerClaims
      ensures headerClaims == old(headerClaims)[id := c]
    {
      headerClaims := headerClaims[id := c];
    }

    method SetPayloadClaim(id: string, c: Json)
      modifies this`payloadClaims
      ensures payloadClaims == old(payloadClaims)[id := c]
    {
      payloadClaims := payloadClaims[id := c];
    }

    /** Works on a copy of the header, so that a builder can be used again. */
    method Sign(env: Env, secret: string) returns (token: Option<string>)
      ensures token == SignedToken(env, headerClaims, payloadClaims, secret)
    {
      var header := headerClaims;
      if "alg" !in header { header := header["alg" := Str(HS256)]; }
      var headerPart := EncodeText(BASE64URL, env.serialize(Obj(header)));
      var payloadPart := EncodeText(BASE64URL, env.serialize(Obj(payloadClaims)));
      var input := TrimFill(BASE64URL, headerPart) + "." + TrimFill(BASE64URL, payloadPart);
      var mac := env.hmac(secret, input);
      if mac.None? { return None; }
      var signature := EncodeText(BASE64URL, mac.value);
      return Some(input + "." + TrimFill(BASE64URL, signature));
    }
  }

  // ------------------------------------------------------------------- HS256

  /** The comparison of `hmacsha::verify`: every byte is looked at, then the lengths. */
  method MacMatches(res: Bytes, signature: Bytes) returns (matched: bool)
    ensures matched <==> res == signature
  {
    matched := true;
    var n := if |res| <= |signature| then |res| else |signature|;
    for i := 0 to n
      invariant matched <==> res[..i] == signature[..i]
    {
      assert res[..i + 1] == res[..i] + [res[i]] && signature[..i + 1] == signature[..i] + [signature[i]];
      if res[i] != signature[i] { matched := false; }
    }
    if |res| != |signature| { matched := false; }
    assert |res| == |signature| ==> res[..n] == res && signature[..n] == signature;
  }

  function MacCheck(env: Env, secret: string, data: string, signature: Bytes): Option<Exception> {
    match env.hmac(secret, data)
    case None => Some(HmacFailed)
    case Some(mac) => if mac == signature then None else Some(InvalidSignature)
  }

  // ---------------------------------------------------------------- verifier

  /** The keys of the verifier's claim table. */
  datatype ClaimKey = Exp | Iat | Nbf {
    function Name(): string {
      match this
      case Exp => "exp"
      case Iat => "iat"
      case Nbf => "nbf"
    }
  }

  datatype Check = Pass | Fail(e: Exception)

  /** One claim callback: absent passes, not an integer throws, out of time reports expiry. */
  function CheckClaim(key: ClaimKey, payload: Claims, now: int): Check {
    if key.Name() !in payload then Pass
    else match payload[key.Name()]
         case Int(date) =>
           if (if key.Exp? then now > date * TICKS else now < date * TICKS) then Fail(Expired) else Pass
         case _ => Fail(BadCast)
  }

  /** Some order in which the hash table holds its three entries. */
  ghost predicate TableOrder(order: seq<ClaimKey>) {
    |order| == 3 && Exp in order && Iat in order && Nbf in order
  }

  /** The first complaint in table order. */
  function CheckClaims(order: seq<ClaimKey>, payload: Claims, now: int): Check {
    if order == [] then Pass
    else match CheckClaim(order[0], payload, now)
         case Fail(e) => Fail(e)
         case Pass => CheckClaims(order[1..], payload, now)
  }

  /** `verifier::verify` with HS256 as the one allowed algorithm. */
  function Verify(env: Env, secret: string, jwt: Decoded, now: int, order: seq<ClaimKey>): Check {
    if "alg" !in jwt.header then Fail(ClaimNotPresent)
    else match jwt.header["alg"]
         case Str(alg) =>
           if alg != HS256 then Fail(WrongAlgorithm)
           else (match MacCheck(env, secret, jwt.headerText + "." + jwt.payloadText, jwt.signature)
                 case Some(e) => Fail(e)
                 case None => CheckClaims(order, jwt.payload, now))
         case _ => Fail(BadCast)
  }

  method VerifyToken(env: Env, secret: string, jwt: Decoded, now: int, order: seq<ClaimKey>) returns (r: Check)
    ensures r == Verify(env, secret, jwt, now, order)
  {
    var data := jwt.headerText + "." + jwt.payloadText;
    if "alg" !in jwt.header { return Fail(ClaimNotPresent); }
    if !jwt.header["alg"].Str? { return Fail(BadCast); }
    if jwt.header["alg"].s != HS256 { return Fail(WrongAlgorithm); }
    var mac := env.hmac(secret, data);
    if mac.None? { return Fail(HmacFailed); }
    var matched := MacMatches(mac.value, jwt.signature);
    if !matched { return Fail(InvalidSignature); }
    assert order[0..] == order;
    for i := 0 to |order|
      invariant CheckClaims(order, jwt.payload, now) == CheckClaims(order[i..], jwt.payload, now)
    {
      assert order[i..][1..] == order[i + 1..];
      var c := CheckClaim(order[i], jwt.payload, now);
      if c.Fail? { return c; }
    }
    return Pass;
  }
}
