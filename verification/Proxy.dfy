/** The upstream side of Proxy.cpp: the configured address and the request written to it. */
module Proxy {
  import opened Wrappers
  import opened Text
  import opened Numbers
  import opened Http
  import opened HttpLaws
  import opened Response
  import opened Auth

  // ----------------------------------------------------------------- address

  datatype UpstreamAddr = UpstreamAddr(host: string, port: int, prefix: string)

  datatype AddrError = UnsupportedScheme | BadPort | EmptyHost

  /** "/v1/" becomes "/v1"; a lone "/" stays. */
  function TrimSlashes(prefix: string): (r: string)
    ensures |r| <= |prefix| && r == prefix[..|r|]
    ensures |r| > 1 ==> r[|r| - 1] != '/'
    ensures forall i :: |r| <= i < |prefix| ==> prefix[i] == '/'
    ensures r == "" <==> prefix == ""
  {
    if |prefix| > 1 && prefix[|prefix| - 1] == '/' then TrimSlashes(prefix[..|prefix| - 1]) else prefix
  }

  /** `rfind` of one character. */
  function FindLast(s: string, c: char): (r: Option<nat>)
    ensures r.Some? ==> r.value < |s| && s[r.value] == c && c !in s[r.value + 1..]
    ensures r.None? ==> c !in s
  {
    if s == "" then None
    else if s[|s| - 1] == c then Some(|s| - 1)
    else
      assert s == s[..|s| - 1] + [s[|s| - 1]];
      var r := FindLast(s[..|s| - 1], c);
      assert r.Some? ==> s[r.value + 1..] == s[..|s| - 1][r.value + 1..] + [s[|s| - 1]];
      r
  }

  function HostPort(rest: string): string {
    match Find(rest, "/", 0)
    case None => rest
    case Some(slash) => rest[..slash]
  }

  function PrefixOf(rest: string): string {
    match Find(rest, "/", 0)
    case None => ""
    case Some(slash) => TrimSlashes(rest[slash..])
  }

  /** Host and port of the authority part; port 80 where none is given. */
  function WithHostPort(hostport: string, prefix: string): Result<UpstreamAddr, AddrError> {
    match FindLast(hostport, ':')
    case None => if hostport == "" then Err(EmptyHost) else Ok(UpstreamAddr(hostport, 80, prefix))
    case Some(colon) =>
      match Stoi(hostport[colon + 1..])
      case None => Err(BadPort)
      case Some(port) =>
        if port <= 0 || port > 65535 then Err(BadPort)
        else if colon == 0 then Err(EmptyHost)
        else Ok(UpstreamAddr(hostport[..colon], port, prefix))
  }

  function ParseUpstream(base: string): Result<UpstreamAddr, AddrError> {
    if !("http://" <= base) then Err(UnsupportedScheme)
    else WithHostPort(HostPort(base[7..]), PrefixOf(base[7..]))
  }

  /** The loop that takes trailing slashes off. */
  method TrimTrailing(prefix: string) returns (r: string)
    ensures r == TrimSlashes(prefix)
  {
    r := prefix;
    while |r| > 1 && r[|r| - 1] == '/'
      invariant TrimSlashes(prefix) == TrimSlashes(r)
    {
      r := r[..|r| - 1];
    }
  }

  method ParseUpstreamText(base: string) returns (r: Result<UpstreamAddr, AddrError>)
    ensures r == ParseUpstream(base)
  {
    hide MatchAt, TrimSlashes, Stoi;
    if |base| < 7 || base[..7] != "http://" { return Err(UnsupportedScheme); }
    var rest := base[7..];
    FindChar(rest, '/');
    var slash := Find(rest, "/", 0);
    var hostport, prefix := rest, "";
    if slash.Some? {
      hostport, prefix := rest[..slash.value], rest[slash.value..];
      prefix := TrimTrailing(prefix);
    }
    assert hostport == HostPort(rest) && prefix == PrefixOf(rest);
    r := SplitHostPort(hostport, prefix);
  }

  method SplitHostPort(hostport: string, prefix: string) returns (r: Result<UpstreamAddr, AddrError>)
    ensures r == WithHostPort(hostport, prefix)
  {
    hide Stoi;
    var colon := FindLast(hostport, ':');
    var host, port := hostport, 80;
    if colon.Some? {
      host := hostport[..colon.value];
      var v := Stoi(hostport[colon.value + 1..]);
      if v.None? { return Err(BadPort); }
      port := v.value;
      if port <= 0 || port > 65535 { return Err(BadPort); }
    }
    if host == "" { return Err(EmptyHost); }
    return Ok(UpstreamAddr(host, port, prefix));
  }

  // -------------------------------------------------------- the request written

  /** Line breaks cannot get into a header value: both their characters become spaces. */
  function Sanitize(v: string): (r: string)
    ensures |r| == |v|
    ensures forall i :: 0 <= i < |v| ==> r[i] == if v[i] == '\r' || v[i] == '\n' then ' ' else v[i]
  {
    seq(|v|, i requires 0 <= i < |v| => if v[i] == '\r' || v[i] == '\n' then ' ' else v[i])
  }

  method SanitizeHeaderValue(v: string) returns (o: string)
    ensures o == Sanitize(v)
  {
    o := "";
    for i := 0 to |v|
      invariant o == Sanitize(v)[..i]
    {
      if v[i] == '\r' || v[i] == '\n' { o := o + " "; } else { o := o + [v[i]]; }
    }
  }

  function Csv(v: seq<string>): string {
    if v == [] then ""
    else if |v| == 1 then Sanitize(v[0])
    else Csv(v[..|v| - 1]) + "," + Sanitize(v[|v| - 1])
  }

  method JoinCsv(v: seq<string>) returns (o: string)
    ensures o == Csv(v)
  {
    o := "";
    for i := 0 to |v|
      invariant o == Csv(v[..i])
    {
      assert v[..i + 1][..i] == v[..i];
      if i > 0 { o := o + ","; }
      var item := SanitizeHeaderValue(v[i]);
      o := o + item;
    }
    assert v[..|v|] == v;
  }

  /** One header line the source writes, some of them only on a condition. */
  datatype Row = Row(present: bool, name: string, value: string)

  /** The header lines of an upstream request, in order. */
  function UpstreamRows(host: string, req: HttpRequest, auth: AuthInfo): (rows: seq<Row>)
    ensures |rows| == 8
  {
    [Row(true, "host", Sanitize(host)),
     Row(req.Header("content-type") != "", "content-type", Sanitize(req.Header("content-type"))),
     Row(true, "content-length", Decimal(|req.body|)),
     Row(true, "x-forwarded-for", Sanitize(req.clientIp)),
     Row(auth.sub != "", "x-auth-sub", Sanitize(auth.sub)),
     Row(auth.roles != [], "x-auth-roles", Csv(auth.roles)),
     Row(auth.permissions != [], "x-auth-scopes", Csv(auth.permissions)),
     Row(true, "connection", "close")]
  }

  /** The fields of the rows that are written. */
  function Present(rows: seq<Row>): (fields: seq<Field>)
    ensures |fields| <= |rows|
  {
    if rows == [] then []
    else
      var row := rows[|rows| - 1];
      Present(rows[..|rows| - 1]) + (if row.present then [Field(row.name, row.value)] else [])
  }

  function UpstreamPath(prefix: string, forwardPath: string): string {
    var path := prefix + forwardPath;
    if path == "" || path[0] != '/' then "/" + path else path
  }

  function UpstreamWire(addr: UpstreamAddr, req: HttpRequest, forwardPath: string, auth: AuthInfo): string {
    PrintHead(req.verb, UpstreamPath(addr.prefix, forwardPath), "HTTP/1.1", Present(UpstreamRows(addr.host, req, auth)))
    + (CRLF + req.body)
  }

  /** `wire += name: value CRLF`, when the source's condition holds. */
  method AppendRow(wire: string, row: Row, ghost start: string, ghost rows: seq<Row>, ghost k: nat) returns (r: string)
    requires k < |rows| && row == rows[k]
    requires wire == Printed(start, Present(rows[..k]))
    ensures r == Printed(start, Present(rows[..k + 1]))
  {
    hide Printed;
    assert rows[..k + 1][..k] == rows[..k];
    assert Present(rows[..k]) + [] == Present(rows[..k]);
    r := wire;
    if row.present {
      PrintOneMore(start, Present(rows[..k]), Field(row.name, row.value));
      r := r + (row.name + ": " + row.value + CRLF);
    }
  }

  /** The conditional lines about the caller. */
  method AppendIdentity(wire: string, auth: AuthInfo, ghost start: string, ghost host: string, ghost req: HttpRequest)
    returns (r: string)
    requires wire == Printed(start, Present(UpstreamRows(host, req, auth)[..4]))
    ensures r == Printed(start, Present(UpstreamRows(host, req, auth)[..7]))
  {
    hide Printed, Csv, Decimal, Sanitize, HttpRequest.Header, Present;
    ghost var rows := UpstreamRows(host, req, auth);
    var value := SanitizeHeaderValue(auth.sub);
    r := AppendRow(wire, Row(auth.sub != "", "x-auth-sub", value), start, rows, 4);
    value := JoinCsv(auth.roles);
    r := AppendRow(r, Row(auth.roles != [], "x-auth-roles", value), start, rows, 5);
    value := JoinCsv(auth.permissions);
    r := AppendRow(r, Row(auth.permissions != [], "x-auth-scopes", value), start, rows, 6);
  }

  /** The wire construction of `forwardRequest`. */
  method BuildUpstreamRequest(addr: UpstreamAddr, req: HttpRequest, forwardPath: string, auth: AuthInfo)
    returns (wire: string)
    ensures wire == UpstreamWire(addr, req, forwardPath, auth)
  {
    hide Printed, Csv, Decimal, Sanitize, PrintHead, HttpRequest.Header, Present;
    var path := addr.prefix + forwardPath;
    if path == "" || path[0] != '/' { path := "/" + path; }
    wire := req.verb + " " + path + " " + "HTTP/1.1" + CRLF;
    ghost var start, rows := wire, UpstreamRows(addr.host, req, auth);
    PrintNothing(start);
    NothingPresent(rows);
    var value := SanitizeHeaderValue(addr.host);
    wire := AppendRow(wire, Row(true, "host", value), start, rows, 0);
    var contentType := req.Header("content-type");
    value := SanitizeHeaderValue(contentType);
    wire := AppendRow(wire, Row(contentType != "", "content-type", value), start, rows, 1);
    wire := AppendRow(wire, Row(true, "content-length", Decimal(|req.body|)), start, rows, 2);
    value := SanitizeHeaderValue(req.clientIp);
    wire := AppendRow(wire, Row(true, "x-forwarded-for", value), start, rows, 3);
    wire := AppendIdentity(wire, auth, start, addr.host, req);
    wire := AppendRow(wire, Row(true, "connection", "close"), start, rows, 7);
    assert rows[..8] == rows;
    PrintedRequest(req.verb, path, Present(rows));
    wire := wire + (CRLF + req.body);
  }

  lemma NothingPresent(rows: seq<Row>)
    ensures Present(rows[..0]) == []
  {
  }

  lemma PrintedRequest(verb: string, path: string, fields: seq<Field>)
    ensures Printed(verb + " " + path + " " + "HTTP/1.1" + CRLF, fields) == PrintHead(verb, path, "HTTP/1.1", fields)
  {
  }

  // -------------------------------------------------------------------- laws

  lemma SanitizeOneLine(v: string)
    ensures OneLine(Sanitize(v)) && '\r' !in Sanitize(v)
  {
    OneLineWithout(Sanitize(v));
  }

  lemma {:induction false} CsvOneLine(v: seq<string>)
    ensures '\r' !in Csv(v) && OneLine(Csv(v))
  {
    if v == [] {
    } else {
      SanitizeOneLine(v[|v| - 1]);
      CsvOneLine(v[..|v| - 1]);
    }
    OneLineWithout(Csv(v));
  }

  predicate IsNameChar(c: char) { 'a' <= c <= 'z' || c == '-' }

  /** A name the gateway writes: lower-case letters and hyphens. */
  ghost predicate PlainFieldName(name: string) {
    name != "" && forall i :: 0 <= i < |name| ==> IsNameChar(name[i])
  }

  /** Rows with plain names and one-line values. */
  ghost predicate PlainRows(rows: seq<Row>) {
    forall i :: 0 <= i < |rows| ==> PlainFieldName(rows[i].name) && OneLine(rows[i].value)
  }

  lemma OwnFieldNames()
    ensures PlainFieldName("host") && PlainFieldName("content-type")
    ensures PlainFieldName("content-length") && PlainFieldName("connection")
  {
  }

  lemma ForwardedFieldNames()
    ensures PlainFieldName("x-forwarded-for") && PlainFieldName("x-auth-sub")
    ensures PlainFieldName("x-auth-roles") && PlainFieldName("x-auth-scopes")
  {
  }

  lemma UpstreamRowsPlain(host: string, req: HttpRequest, auth: AuthInfo)
    ensures PlainRows(UpstreamRows(host, req, auth))
  {
    hide Sanitize, Csv, Decimal, OneLine, HttpRequest.Header, PlainFieldName;
    OwnFieldNames();
    ForwardedFieldNames();
    SanitizeOneLine(host);
    SanitizeOneLine(req.Header("content-type"));
    SanitizeOneLine(req.clientIp);
    SanitizeOneLine(auth.sub);
    CsvOneLine(auth.roles);
    CsvOneLine(auth.permissions);
    OneLineWithout(Decimal(|req.body|));
    OneLineWithout("close");
  }

  lemma PlainField(f: Field)
    requires PlainFieldName(f.name) && OneLine(f.value)
    ensures Printable(f)
    ensures Normal(f) == Field(f.name, Trim(f.value))
    ensures Storable(f) <==> |Trim(f.value)| <= MAX_VALUE
  {
    hide Trim;
    OneLineWithout(f.name);
    TrimPadded(f.name);
    LowerFixed(f.name);
  }

  /** Two names told apart by their length and first letter. */
  predicate Apart(a: string, b: string) {
    |a| != |b| || (a != "" && b != "" && a[0] != b[0])
  }

  /** No name is written twice, and none is the client's authorization header. */
  lemma UpstreamNamesApart(host: string, req: HttpRequest, auth: AuthInfo)
    ensures var rows := UpstreamRows(host, req, auth);
            && (forall i, j :: 0 <= i < j < |rows| ==> Apart(rows[i].name, rows[j].name))
            && (forall i :: 0 <= i < |rows| ==> Apart(rows[i].name, "authorization"))
  {
    hide Sanitize, Csv, Decimal, HttpRequest.Header;
  }
}
