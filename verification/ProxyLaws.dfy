/** What the upstream reads is what the gateway meant to send. */
module ProxyLaws {
  import opened Wrappers
  import opened Text
  import opened Numbers
  import opened Http
  import opened HttpLaws
  import opened Auth
  import opened Proxy

  // -------------------------------------------------------------------- path

  lemma DotsAt(s: string, i: int)
    ensures MatchAt(s, "..", i) <==> 0 <= i && i + 1 < |s| && s[i] == '.' && s[i + 1] == '.'
  {
    if 0 <= i && i + 1 < |s| {
      assert s[i..i + 2] == [s[i], s[i + 1]];
    }
  }

  ghost predicate NoDots(s: string) {
    forall i :: !MatchAt(s, "..", i)
  }

  lemma NoDotsConcat(a: string, b: string)
    requires NoDots(a) && NoDots(b) && (b == "" || b[0] == '/')
    ensures NoDots(a + b)
  {
    forall i ensures !MatchAt(a + b, "..", i) {
      DotsAt(a + b, i);
      DotsAt(a, i);
      DotsAt(b, i - |a|);
    }
  }

  ghost predicate NoSpace(s: string) {
    forall i :: 0 <= i < |s| ==> !IsSpace(s[i])
  }

  /** The configured prefixes the gateway can forward under. */
  ghost predicate PlainPrefix(prefix: string) {
    (prefix == "" || prefix[0] == '/') && NoSpace(prefix) && '?' !in prefix && NoDots(prefix)
  }

  /** What routing hands to the proxy. */
  ghost predicate Forwardable(path: string) {
    path != "" && path[0] == '/' && NoSpace(path) && NoDots(PathOf(path))
  }

  lemma PathOfSplit(target: string)
    ensures '?' !in PathOf(target) && PathOf(target) <= target
    ensures PathOf(target) == target ==> QueryOf(target) == ""
    ensures PathOf(target) != target ==> target == PathOf(target) + "?" + QueryOf(target)
    ensures target != "" && target[0] == '/' ==> PathOf(target) != "" && PathOf(target)[0] == '/'
  {
    FindChar(target, '?');
  }

  /** The first '?' splits path from query, and nothing else does. */
  lemma PathOfIs(path: string, query: string)
    requires '?' !in path
    ensures PathOf(path) == path && QueryOf(path) == ""
    ensures PathOf(path + "?" + query) == path && QueryOf(path + "?" + query) == query
  {
    FindChar(path, '?');
    FindCharAfter(path, '?', query);
    var t := path + "?" + query;
    assert t[..|path|] == path && t[|path| + 1..] == query;
  }

  lemma UpstreamPathSplits(prefix: string, fp: string)
    requires PlainPrefix(prefix) && Forwardable(fp)
    ensures UpstreamPath(prefix, fp) == prefix + fp
    ensures IsWord(prefix + fp) && (prefix + fp)[0] == '/'
    ensures PathOf(prefix + fp) == prefix + PathOf(fp)
    ensures QueryOf(prefix + fp) == QueryOf(fp)
    ensures NoDots(PathOf(prefix + fp))
  {
    hide PathOf, QueryOf, NoDots;
    PathOfSplit(fp);
    NoDotsConcat(prefix, PathOf(fp));
    PathOfIs(prefix + PathOf(fp), QueryOf(fp));
    if PathOf(fp) != fp {
      assert prefix + fp == (prefix + PathOf(fp)) + "?" + QueryOf(fp);
    }
  }

  // ----------------------------------------------------------------- headers

  /** The header table the rows describe. */
  function Table(rows: seq<Row>): map<string, string> {
    if rows == [] then map[]
    else
      var row := rows[|rows| - 1];
      var before := Table(rows[..|rows| - 1]);
      if row.present then before[row.name := Trim(row.value)] else before
  }

  /** Every written row is a field with a plain name and a one-line value. */
  lemma {:induction false} PresentIsPlain(rows: seq<Row>)
    requires PlainRows(rows)
    ensures forall f :: f in Present(rows) ==> PlainFieldName(f.name) && OneLine(f.value)
    ensures (forall f :: f in Present(rows) ==> |Trim(f.value)| <= MAX_VALUE) <==> RowsFit(rows)
  {
    hide Trim, PlainFieldName, OneLine;
    if rows == [] {
    } else {
      var row, before := rows[|rows| - 1], rows[..|rows| - 1];
      PresentIsPlain(before);
      assert rows == before + [row];
    }
  }

  lemma {:induction false} TableOfRows(rows: seq<Row>)
    requires PlainRows(rows)
    ensures FieldMap(Normals(Present(rows))) == Table(rows)
  {
    hide Trim, PlainFieldName, OneLine, Normal;
    if rows == [] {
    } else {
      var row, before := rows[|rows| - 1], rows[..|rows| - 1];
      TableOfRows(before);
      if row.present {
        PlainField(Field(row.name, row.value));
        assert Present(rows) == Present(before) + [Field(row.name, row.value)];
        assert Normals(Present(rows))[..|Present(before)|] == Normals(Present(before));
      } else {
        assert Present(rows) == Present(before);
      }
    }
  }

  lemma RowsToFields(rows: seq<Row>)
    requires PlainRows(rows)
    ensures forall i :: 0 <= i < |Present(rows)| ==> Printable(Present(rows)[i])
    ensures FieldMap(Normals(Present(rows))) == Table(rows)
    ensures (forall i :: 0 <= i < |Present(rows)| ==> Storable(Present(rows)[i])) <==> RowsFit(rows)
  {
    hide Trim, PlainFieldName, OneLine, Printable, Storable, Present, FieldMap, Table, RowsFit, PlainRows;
    PresentIsPlain(rows);
    TableOfRows(rows);
    var fields := Present(rows);
    forall i | 0 <= i < |fields|
      ensures fields[i] in fields && Printable(fields[i])
      ensures Storable(fields[i]) <==> |Trim(fields[i].value)| <= MAX_VALUE
    {
      PlainField(fields[i]);
    }
  }

  /** Every value written is within the parser's limit. */
  ghost predicate RowsFit(rows: seq<Row>) {
    forall i :: 0 <= i < |rows| && rows[i].present ==> |Trim(rows[i].value)| <= 8192
  }

  /** The upstream's table has the names of the written rows and no others, each with its own value. */
  lemma {:induction false} TableHolds(rows: seq<Row>)
    requires forall i, j :: 0 <= i < j < |rows| ==> Apart(rows[i].name, rows[j].name)
    ensures forall i :: 0 <= i < |rows| && rows[i].present ==>
              rows[i].name in Table(rows) && Table(rows)[rows[i].name] == Trim(rows[i].value)
    ensures forall n :: n in Table(rows) ==> exists i :: 0 <= i < |rows| && rows[i].present && rows[i].name == n
  {
    hide Trim;
    if rows == [] {
    } else {
      var row, before := rows[|rows| - 1], rows[..|rows| - 1];
      TableHolds(before);
      forall i | 0 <= i < |rows| && rows[i].present
        ensures rows[i].name in Table(rows) && Table(rows)[rows[i].name] == Trim(rows[i].value)
      {
        if i < |before| { assert before[i] == rows[i]; }
      }
      forall n | n in Table(rows) ensures exists i :: 0 <= i < |rows| && rows[i].present && rows[i].name == n {
        if n in Table(before) {
          var i :| 0 <= i < |before| && before[i].present && before[i].name == n;
          assert rows[i].present && rows[i].name == n;
        }
      }
    }
  }

  /** The client's credentials stay at the gateway. */
  lemma AuthorizationStays(host: string, req: HttpRequest, auth: AuthInfo)
    ensures "authorization" !in Table(UpstreamRows(host, req, auth))
  {
    hide Table, UpstreamRows;
    UpstreamNamesApart(host, req, auth);
    TableHolds(UpstreamRows(host, req, auth));
  }

  /** Upstream request round trip. For every forwardable request and plain prefix, the first blank
      line of the wire is the printer's own, what follows it is the body, and the head parses to the
      same method, path and query and to exactly the table of the rows -- or, when a value is over
      the limit, to nothing. */
  lemma UpstreamRoundTrip(addr: UpstreamAddr, req: HttpRequest, fp: string, auth: AuthInfo)
    requires IsWord(req.verb) && IsMethod(req.verb) && Forwardable(fp) && PlainPrefix(addr.prefix)
    ensures var wire := UpstreamWire(addr, req, fp, auth);
            var rows := UpstreamRows(addr.host, req, auth);
            && Find(wire, BLANK_LINE, 0).Some?
            && var e := Find(wire, BLANK_LINE, 0).value;
            && e + 4 <= |wire| && wire[e + 4..] == req.body
            && ParseRequest(wire[..e + 2]) ==
               (if RowsFit(rows)
                then Some(HttpRequest(req.verb, addr.prefix + fp, addr.prefix + PathOf(fp), QueryOf(fp), "HTTP/1.1",
                                      Table(rows), "", ""))
                else None)
  {
    hide PathOf, QueryOf, UpstreamRows, Present, Table, ParseRequest, PrintHead, Find, MatchAt, NoDots, Room, OneLine,
         Trim, Storable, Printable, Normals, UpstreamPath, FieldMap, RowsFit;
    var rows := UpstreamRows(addr.host, req, auth);
    var path := addr.prefix + fp;
    UpstreamPathSplits(addr.prefix, fp);
    UpstreamRowsPlain(addr.host, req, auth);
    RowsToFields(rows);
    assert IsWord("HTTP/1.1");
    CutAfterLastBreak(req.verb, path, "HTTP/1.1", Present(rows), req.body);
    ParsePrinted(req.verb, path, "HTTP/1.1", Present(rows));
    NoDotsFound(addr.prefix + PathOf(fp));
    ShortRoom(Normals(Present(rows)));
  }

  lemma NoDotsFound(s: string)
    requires NoDots(s)
    ensures Find(s, "..", 0).None?
  {
  }

  lemma ShortRoom(fields: seq<Field>)
    requires |fields| <= 8
    ensures Room(fields)
  {
    if fields != [] {
      FieldMapSize(fields[..|fields| - 1]);
    }
  }

  // ----------------------------------------------------------------- address

  lemma HostPortReads(hostport: string, path: string)
    requires '/' !in hostport && (path == "" || path[0] == '/')
    ensures HostPort(hostport + path) == hostport
    ensures PrefixOf(hostport + path) == if path == "" then "" else TrimSlashes(path)
  {
    hide TrimSlashes;
    var rest := hostport + path;
    if path == "" {
      assert rest == hostport;
      FindChar(rest, '/');
    } else {
      assert rest == hostport + ['/'] + path[1..];
      FindCharAfter(hostport, '/', path[1..]);
      assert rest[..|hostport|] == hostport && rest[|hostport|..] == path;
    }
  }

  lemma {:induction false} LastOccurrence(before: string, c: char, after: string)
    requires c !in after
    ensures FindLast(before + [c] + after, c) == Some(|before|)
  {
    var s := before + [c] + after;
    if after == "" {
    } else {
      assert s[..|s| - 1] == before + [c] + after[..|after| - 1];
      LastOccurrence(before, c, after[..|after| - 1]);
    }
  }

  /** An address without a port in its authority: port 80, or no host. */
  lemma PlainAddressIs(authority: string, path: string)
    requires '/' !in authority && ':' !in authority && (path == "" || path[0] == '/')
    ensures ParseUpstream("http://" + (authority + path)) ==
            if authority == "" then Err(EmptyHost) else Ok(UpstreamAddr(authority, 80, TrimSlashes(path)))
  {
    hide Find, MatchAt, TrimSlashes, HostPort, PrefixOf, Stoi;
    assert ("http://" + (authority + path))[7..] == authority + path;
    HostPortReads(authority, path);
  }

  /** An address with a colon in its authority: what follows the last one must be a number in 1..65535, and
      what precedes it the host. */
  lemma PortAddressIs(host: string, port: string, path: string)
    requires '/' !in host && '/' !in port && ':' !in port && (path == "" || path[0] == '/')
    ensures ParseUpstream("http://" + (host + ":" + port + path)) ==
            match Stoi(port)
            case None => Err(BadPort)
            case Some(n) =>
              if n < 1 || n > 65535 then Err(BadPort)
              else if host == "" then Err(EmptyHost)
              else Ok(UpstreamAddr(host, n, TrimSlashes(path)))
  {
    hide Find, MatchAt, TrimSlashes, HostPort, PrefixOf, Stoi;
    var authority := host + ":" + port;
    assert ("http://" + (authority + path))[7..] == authority + path;
    HostPortReads(authority, path);
    LastOccurrence(host, ':', port);
    assert authority[..|host|] == host && authority[|host| + 1..] == port;
  }

  lemma OtherSchemeRefused(base: string)
    requires !("http://" <= base)
    ensures ParseUpstream(base) == Err(UnsupportedScheme)
  {
  }

  /** A configured address is read as the host, port and path it was written from. */
  lemma AddressReads(host: string, port: nat, path: string)
    requires host != "" && '/' !in host && 1 <= port <= 65535 && (path == "" || path[0] == '/')
    ensures ParseUpstream("http://" + (host + ":" + Decimal(port) + path))
            == Ok(UpstreamAddr(host, port, TrimSlashes(path)))
    ensures ':' !in host ==> ParseUpstream("http://" + (host + path)) == Ok(UpstreamAddr(host, 80, TrimSlashes(path)))
  {
    hide Find, MatchAt, TrimSlashes, HostPort, PrefixOf, Decimal, Stoi;
    var digits := Decimal(port);
    var hostport := host + ":" + digits;
    assert ("http://" + (hostport + path))[7..] == hostport + path;
    assert ("http://" + (host + path))[7..] == host + path;
    assert '/' !in digits && ':' !in digits;
    HostPortReads(hostport, path);
    HostPortReads(host, path);
    LastOccurrence(host, ':', digits);
    assert hostport[..|host|] == host && hostport[|host| + 1..] == digits;
    StoiOfDecimal(port);
  }

  /** A configured path keeps a slash at its end only when it is nothing but slashes, and then the
      forwarded path is written behind a second one. */
  lemma LoneSlashDoubles(path: string, fp: string)
    requires path == "" || path[0] == '/'
    requires fp != "" && fp[0] == '/'
    ensures var prefix, onlySlashes := TrimSlashes(path), path != "" && forall i :: 0 <= i < |path| ==> path[i] == '/';
            && UpstreamPath(prefix, fp) == prefix + fp
            && (prefix != "" && prefix[|prefix| - 1] == '/' <==> onlySlashes)
            && (onlySlashes ==> UpstreamPath(prefix, fp) == "/" + fp)
  {
    var prefix := TrimSlashes(path);
    assert |prefix| == 1 ==> prefix == [prefix[0]];
  }
}
