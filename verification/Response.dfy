/** Responses: `buildResponse` of Http.cpp and the upstream reader of Proxy.cpp. */
module Response {
  import opened Text
  import opened Numbers
  import opened Http
  import opened HttpLaws

  /** `headers` lists the entries of the source's map in the order the map iterates. */
  datatype HttpResponse = HttpResponse(status: nat, headers: seq<Field>, body: string)

  function ReasonPhrase(status: nat): string {
    match status
    case 200 => "OK"
    case 400 => "Bad Request"
    case 401 => "Unauthorized"
    case 403 => "Forbidden"
    case 404 => "Not Found"
    case 405 => "Method Not Allowed"
    case 413 => "Payload Too Large"
    case 429 => "Too Many Requests"
    case 502 => "Bad Gateway"
    case 504 => "Gateway Timeout"
    case _ => "Error"
  }

  lemma ReasonOneLine(status: nat)
    ensures OneLine(ReasonPhrase(status)) && ReasonPhrase(status) != ""
  {
    hide OneLine, ReasonPhrase;
    if status < 404 { LowReason(status); } else { HighReason(status); }
  }

  lemma LowReason(status: nat)
    requires status < 404
    ensures OneLine(ReasonPhrase(status)) && ReasonPhrase(status) != ""
  {
    hide OneLine;
    match status {
      case 200 => OneLineWithout("OK");
      case 400 => OneLineWithout("Bad Request");
      case 401 => OneLineWithout("Unauthorized");
      case 403 => OneLineWithout("Forbidden");
      case _ => OneLineWithout("Error");
    }
  }

  lemma HighReason(status: nat)
    requires status >= 404
    ensures OneLine(ReasonPhrase(status)) && ReasonPhrase(status) != ""
  {
    hide OneLine;
    match status {
      case 404 => OneLineWithout("Not Found");
      case 405 => OneLineWithout("Method Not Allowed");
      case 413 => OneLineWithout("Payload Too Large");
      case 429 => OneLineWithout("Too Many Requests");
      case 502 => OneLineWithout("Bad Gateway");
      case 504 => OneLineWithout("Gateway Timeout");
      case _ => OneLineWithout("Error");
    }
  }

  /** The status lines the gateway's own answers have. */
  lemma StatusLines()
    ensures StatusLine(200) == "HTTP/1.1 " + "200" + " " + "OK"
    ensures StatusLine(400) == "HTTP/1.1 " + "400" + " " + "Bad Request"
    ensures StatusLine(401) == "HTTP/1.1 " + "401" + " " + "Unauthorized"
    ensures StatusLine(403) == "HTTP/1.1 " + "403" + " " + "Forbidden"
    ensures StatusLine(404) == "HTTP/1.1 " + "404" + " " + "Not Found"
    ensures StatusLine(405) == "HTTP/1.1 " + "405" + " " + "Method Not Allowed"
    ensures StatusLine(413) == "HTTP/1.1 " + "413" + " " + "Payload Too Large"
    ensures StatusLine(429) == "HTTP/1.1 " + "429" + " " + "Too Many Requests"
    ensures StatusLine(502) == "HTTP/1.1 " + "502" + " " + "Bad Gateway"
    ensures StatusLine(504) == "HTTP/1.1 " + "504" + " " + "Gateway Timeout"
  {
    hide Decimal;
    ThreeDigits(200, 2, 0, 0);
    ThreeDigits(400, 4, 0, 0);
    ThreeDigits(401, 4, 0, 1);
    ThreeDigits(403, 4, 0, 3);
    ThreeDigits(404, 4, 0, 4);
    ThreeDigits(405, 4, 0, 5);
    ThreeDigits(413, 4, 1, 3);
    ThreeDigits(429, 4, 2, 9);
    ThreeDigits(502, 5, 0, 2);
    ThreeDigits(504, 5, 0, 4);
  }

  lemma ThreeDigits(n: nat, a: nat, b: nat, c: nat)
    requires 1 <= a < 10 && b < 10 && c < 10 && n == 100 * a + 10 * b + c
    ensures Decimal(n) == [DigitChar(a), DigitChar(b), DigitChar(c)]
  {
    hide Decimal, DigitChar;
    DecimalStep(n, 10 * a + b, c);
    DecimalStep(10 * a + b, a, b);
    DecimalStep(a, 0, a);
  }

  lemma DecimalStep(n: nat, front: nat, last: nat)
    requires last < 10 && n == 10 * front + last
    ensures Decimal(n) == (if front == 0 then [] else Decimal(front)) + [DigitChar(last)]
  {
    assert n / 10 == front && n % 10 == last;
  }

  predicate Names(fields: seq<Field>, name: string) {
    exists i :: 0 <= i < |fields| && fields[i].name == name
  }

  function StatusLine(status: nat): string {
    "HTTP/1.1 " + Decimal(status) + " " + ReasonPhrase(status)
  }

  /** All header fields of a response as printed: the given ones, then those the printer adds. */
  function ResponseFields(r: HttpResponse): seq<Field> {
    r.headers
    + (if Names(r.headers, "content-type") then [] else [Field("content-type", "application/json")])
    + (if Names(r.headers, "content-length") then [] else [Field("content-length", Decimal(|r.body|))])
    + [Field("connection", "close")]
  }

  /** What is printed for a response that names neither its type nor its length: JSON, its exact length,
      and that the connection closes; and for one that names both, nothing but the last. */
  lemma AddedFields(r: HttpResponse)
    ensures r.headers == [] ==>
              ResponseFields(r) == [Field("content-type", "application/json"),
                                    Field("content-length", Decimal(|r.body|)),
                                    Field("connection", "close")]
    ensures (exists i, j :: 0 <= i < |r.headers| && 0 <= j < |r.headers|
                            && r.headers[i].name == "content-type" && r.headers[j].name == "content-length") ==>
              ResponseFields(r) == r.headers + [Field("connection", "close")]
  {
    hide Decimal;
    assert r.headers + [] + [] == r.headers;
  }

  function ResponseHead(r: HttpResponse): string {
    StatusLine(r.status) + CRLF + Join(PrintLines(ResponseFields(r)))
  }

  function ResponseWire(r: HttpResponse): string {
    ResponseHead(r) + (CRLF + r.body)
  }

  lemma {:induction false} JoinAppend(a: seq<string>, b: seq<string>)
    ensures Join(a + b) == Join(a) + Join(b)
  {
    if a == [] {
      assert a + b == b;
    } else {
      assert (a + b)[1..] == a[1..] + b;
      JoinAppend(a[1..], b);
    }
  }

  /** Text that starts with `start` and goes on with printed fields. */
  function Printed(start: string, fields: seq<Field>): string {
    start + Join(PrintLines(fields))
  }

  /** One more printed field is one more line. */
  lemma PrintOneMore(start: string, fields: seq<Field>, f: Field)
    ensures Printed(start, fields + [f]) == Printed(start, fields) + (f.name + ": " + f.value + CRLF)
  {
    assert PrintLines(fields + [f]) == PrintLines(fields) + [PrintLine(f)];
    JoinAppend(PrintLines(fields), [PrintLine(f)]);
    assert Join([PrintLine(f)]) == PrintLine(f) + CRLF + Join([]);
  }

  lemma PrintNothing(start: string)
    ensures Printed(start, []) == start
  {
  }

  /** The first pass over the headers. */
  method FindHeaders(headers: seq<Field>) returns (hasType: bool, hasLength: bool)
    ensures hasType <==> Names(headers, "content-type")
    ensures hasLength <==> Names(headers, "content-length")
  {
    hasType, hasLength := false, false;
    for i := 0 to |headers|
      invariant hasType <==> exists k :: 0 <= k < i && headers[k].name == "content-type"
      invariant hasLength <==> exists k :: 0 <= k < i && headers[k].name == "content-length"
    {
      if headers[i].name == "content-type" { hasType := true; }
      if headers[i].name == "content-length" { hasLength := true; }
    }
  }

  /** `buildResponse`: two passes over the headers, then the missing ones and the body. */
  method BuildResponse(r: HttpResponse) returns (wire: string)
    ensures wire == ResponseWire(r)
  {
    hide Printed, Decimal, ReasonPhrase, Names;
    wire := "HTTP/1.1 " + Decimal(r.status) + " " + ReasonPhrase(r.status) + CRLF;
    ghost var start, printed: seq<Field> := wire, [];
    PrintNothing(start);
    var hasType, hasLength := FindHeaders(r.headers);
    for i := 0 to |r.headers|
      invariant printed == r.headers[..i]
      invariant wire == Printed(start, printed)
    {
      PrintOneMore(start, printed, r.headers[i]);
      wire := wire + (r.headers[i].name + ": " + r.headers[i].value + CRLF);
      printed := printed + [r.headers[i]];
    }
    if !hasType {
      PrintOneMore(start, printed, Field("content-type", "application/json"));
      wire := wire + ("content-type" + ": " + "application/json" + CRLF);
      printed := printed + [Field("content-type", "application/json")];
    }
    if !hasLength {
      PrintOneMore(start, printed, Field("content-length", Decimal(|r.body|)));
      wire := wire + ("content-length" + ": " + Decimal(|r.body|) + CRLF);
      printed := printed + [Field("content-length", Decimal(|r.body|))];
    }
    PrintOneMore(start, printed, Field("connection", "close"));
    wire := wire + ("connection" + ": " + "close" + CRLF);
    printed := printed + [Field("connection", "close")];
    assert printed == ResponseFields(r);
    assert wire == ResponseHead(r) by { PrintedHead(r, start); }
    wire := wire + (CRLF + r.body);
  }

  lemma PrintedHead(r: HttpResponse, start: string)
    requires start == StatusLine(r.status) + CRLF
    ensures Printed(start, ResponseFields(r)) == ResponseHead(r)
  {
  }
}
