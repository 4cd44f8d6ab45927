/** The request parser of Http.cpp. */
module Http {
  import opened Wrappers
  import opened Text

  const MAX_VALUE := 8192
  const MAX_NAMES_BEFORE_INSERT := 100

  /** `verb` is the source's `method`; `headers` has lower-case names. */
  datatype HttpRequest = HttpRequest(
    verb: string, target: string, path: string, query: string, version: string,
    headers: map<string, string>, body: string, clientIp: string)
  {
    /** `header(name)`: empty when absent. */
    function Header(name: string): string {
      if name in headers then headers[name] else ""
    }
  }

  datatype Field = Field(name: string, value: string)

  // ------------------------------------------------------------ request line

  predicate IsMethodChar(c: char) { 'A' <= c <= 'Z' || c == '-' }

  predicate IsMethod(m: string) {
    forall i :: 0 <= i < |m| ==> IsMethodChar(m[i])
  }

  /** The target up to its first '?'. */
  function PathOf(target: string): string {
    match Find(target, "?", 0)
    case None => target
    case Some(q) => target[..q]
  }

  /** What follows the first '?'. */
  function QueryOf(target: string): string {
    match Find(target, "?", 0)
    case None => ""
    case Some(q) => target[q + 1..]
  }

  function ParseRequestLine(line: string): Option<HttpRequest> {
    var w := Words(line);
    if |w| != 3 || !IsMethod(w[0]) || w[1][0] != '/' || !("HTTP/" <= w[2]) then None
    else if Find(PathOf(w[1]), "..", 0).Some? then None
    else Some(HttpRequest(w[0], w[1], PathOf(w[1]), QueryOf(w[1]), w[2], map[], "", ""))
  }

  // ------------------------------------------------------------ header fields

  /** One header line: name and value trimmed, name in lower case. */
  function ParseLine(line: string): Option<Field> {
    match Find(line, ":", 0)
    case None => None
    case Some(colon) =>
      var name := Lower(Trim(line[..colon]));
      var value := Trim(line[colon + 1..]);
      if name == "" || |value| > MAX_VALUE then None else Some(Field(name, value))
  }

  /** The header loop on the text from `pos` on. */
  function ParseFields(rest: string, headers: map<string, string>): Option<map<string, string>>
    decreases |rest|
  {
    if rest == "" then Some(headers)
    else match Find(rest, CRLF, 0)
         case None => None
         case Some(eol) =>
           if eol == 0 then Some(headers)
           else match ParseLine(rest[..eol])
                case None => None
                case Some(f) =>
                  if |headers| > MAX_NAMES_BEFORE_INSERT then None
                  else ParseFields(rest[eol + 2..], headers[f.name := f.value])
  }

  function ParseRequest(head: string): Option<HttpRequest> {
    match Find(head, CRLF, 0)
    case None => None
    case Some(lineEnd) =>
      match ParseRequestLine(head[..lineEnd])
      case None => None
      case Some(req) =>
        match ParseFields(head[lineEnd + 2..], map[])
        case None => None
        case Some(h) => Some(req.(headers := h))
  }

  method RequestLine(line: string) returns (ok: bool, out: HttpRequest)
    ensures ok <==> ParseRequestLine(line).Some?
    ensures ok ==> out == ParseRequestLine(line).value
  {
    out := HttpRequest("", "", "", "", "", map[], "", "");
    var words := Words(line);
    if |words| < 3 { return false, out; }
    out := out.(verb := words[0], target := words[1], version := words[2]);
    if |words| > 3 { return false, out; }
    for i := 0 to |out.verb|
      invariant IsMethod(out.verb[..i])
    {
      if !('A' <= out.verb[i] <= 'Z') && out.verb[i] != '-' {
        assert !IsMethod(out.verb);
        return false, out;
      }
    }
    assert out.verb[..|out.verb|] == out.verb;
    if out.target == "" || out.target[0] != '/' { return false, out; }
    if |out.version| < 5 || out.version[..5] != "HTTP/" { return false, out; }
    var q := Find(out.target, "?", 0);
    if q.None? {
      out := out.(path := out.target);
    } else {
      out := out.(path := out.target[..q.value], query := out.target[q.value + 1..]);
    }
    if Find(out.path, "..", 0).Some? { return false, out; }
    return true, out;
  }

  method HeaderLine(line: string) returns (r: Option<Field>)
    ensures r == ParseLine(line)
  {
    var colon := Find(line, ":", 0);
    if colon.None? { return None; }
    var name := TrimStr(line[..colon.value]);
    name := ToLower(name);
    var value := TrimStr(line[colon.value + 1..]);
    if name == "" || |value| > MAX_VALUE { return None; }
    return Some(Field(name, value));
  }

  /** ParseFields in terms of positions in the whole head. */
  lemma FieldsAt(head: string, pos: nat, headers: map<string, string>)
    requires pos < |head|
    ensures ParseFields(head[pos..], headers) ==
            match Find(head, CRLF, pos)
            case None => None
            case Some(eol) =>
              if eol == pos then Some(headers)
              else match ParseLine(head[pos..eol])
                   case None => None
                   case Some(f) =>
                     if |headers| > MAX_NAMES_BEFORE_INSERT then None
                     else ParseFields(head[eol + 2..], headers[f.name := f.value])
  {
    hide ParseLine, MatchAt, Find;
    FindShift(head, CRLF, pos);
    match Find(head, CRLF, pos) {
      case None =>
      case Some(eol) =>
        MatchFits(head, CRLF, eol);
        assert head[pos..][..eol - pos] == head[pos..eol];
        assert head[pos..][eol - pos + 2..] == head[eol + 2..];
    }
  }

  lemma MatchFits(s: string, p: string, i: int)
    requires MatchAt(s, p, i)
    ensures 0 <= i <= |s| - |p|
  {
  }

  lemma NoFieldsLeft(headers: map<string, string>)
    ensures ParseFields("", headers) == Some(headers)
  {
  }

  /** The header loop: `pos` advances line by line, the map fills up. */
  method HeaderLoop(head: string, start: nat) returns (ok: bool, headers: map<string, string>)
    requires start <= |head|
    ensures ok <==> ParseFields(head[start..], map[]).Some?
    ensures ok ==> headers == ParseFields(head[start..], map[]).value
  {
    hide ParseLine, MatchAt, Find, ParseFields;
    headers := map[];
    var pos := start;
    while pos < |head|
      invariant start <= pos <= |head|
      invariant ParseFields(head[start..], map[]) == ParseFields(head[pos..], headers)
    {
      FieldsAt(head, pos, headers);
      var eol := Find(head, CRLF, pos);
      if eol.None? { return false, headers; }
      MatchFits(head, CRLF, eol.value);
      if eol.value == pos { return true, headers; }
      var field := HeaderLine(head[pos..eol.value]);
      if field.None? { return false, headers; }
      if |headers| > MAX_NAMES_BEFORE_INSERT { return false, headers; }
      headers := headers[field.value.name := field.value.value];
      pos := eol.value + 2;
    }
    NoFieldsLeft(headers);
    assert head[pos..] == "";
    return true, headers;
  }

  /** `parseHttpRequest`: false, or true with the request filled in. */
  method ParseHttpRequest(head: string) returns (ok: bool, out: HttpRequest)
    ensures ok <==> ParseRequest(head).Some?
    ensures ok ==> out == ParseRequest(head).value
  {
    out := HttpRequest("", "", "", "", "", map[], "", "");
    var lineEnd := Find(head, CRLF, 0);
    if lineEnd.None? { return false, out; }
    ok, out := RequestLine(head[..lineEnd.value]);
    if !ok { return; }
    var headers;
    ok, headers := HeaderLoop(head, lineEnd.value + 2);
    out := out.(headers := headers);
  }
}
