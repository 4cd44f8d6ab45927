/**
 The caller's identity as an upstream reads it from the headers of Proxy.cpp: the subject as
 it stands, the lists split at their commas. The printer escapes nothing, so not every
 identity survives.
 */
module IdentityLaws {
  import opened Text
  import opened Numbers
  import opened Http
  import opened Auth
  import opened Jwt
  import opened CheckToken
  import opened Proxy
  import opened ProxyLaws
  import opened Router

  // ------------------------------------------------------------------- lists

  /** The items between the commas of a text; without a comma it is one item. */
  function SplitCsv(s: string): (items: seq<string>)
    ensures items != []
    decreases |s|
  {
    match FindLast(s, ',')
    case None => [s]
    case Some(i) => SplitCsv(s[..i]) + [s[i + 1..]]
  }

  lemma SplitLast(s: string, item: string)
    requires ',' !in item
    ensures SplitCsv(item) == [item]
    ensures SplitCsv(s + "," + item) == SplitCsv(s) + [item]
  {
    LastOccurrence(s, ',', item);
    var t := s + [','] + item;
    assert t[..|s|] == s && t[|s| + 1..] == item;
  }

  /** Every item is a stretch of the text without commas; the first is at its front, the last at its end. */
  lemma {:induction false} SplitParts(s: string)
    ensures forall k :: 0 <= k < |SplitCsv(s)| ==> ',' !in SplitCsv(s)[k]
    ensures forall k, c :: 0 <= k < |SplitCsv(s)| && c in SplitCsv(s)[k] ==> c in s
    ensures SplitCsv(s)[0] <= s
    ensures var last := SplitCsv(s)[|SplitCsv(s)| - 1]; |last| <= |s| && last == s[|s| - |last|..]
    decreases |s|
  {
    match FindLast(s, ',') {
      case None =>
      case Some(i) =>
        SplitParts(s[..i]);
        PartChars(s, i);
    }
  }

  lemma PartChars(s: string, i: nat)
    requires i < |s|
    ensures forall c :: c in s[..i] || c in s[i + 1..] ==> c in s
  {
    assert s == s[..i] + [s[i]] + s[i + 1..];
  }

  // ---------------------------------------------------- which lists survive

  ghost predicate NoBreaks(s: string) { '\r' !in s && '\n' !in s }

  /** A text with neither commas nor line breaks. */
  ghost predicate PlainItem(s: string) { ',' !in s && NoBreaks(s) }

  predicate StartsBlank(s: string) { s != "" && IsBlank(s[0]) }

  predicate EndsBlank(s: string) { s != "" && IsBlank(s[|s| - 1]) }

  /** A list the comma-joined form keeps. */
  ghost predicate Separable(v: seq<string>) {
    v != [] && (forall k :: 0 <= k < |v| ==> PlainItem(v[k])) && !StartsBlank(v[0]) && !EndsBlank(v[|v| - 1])
  }

  lemma SanitizeKeeps(v: string)
    ensures Sanitize(v) == v <==> NoBreaks(v)
    ensures NoBreaks(Sanitize(v))
  {
    if NoBreaks(v) {
      forall i | 0 <= i < |v| ensures v[i] in v && Sanitize(v)[i] == v[i] {
      }
    } else if '\r' in v {
      var i :| 0 <= i < |v| && v[i] == '\r';
      assert Sanitize(v)[i] != v[i];
    } else {
      var i :| 0 <= i < |v| && v[i] == '\n';
      assert Sanitize(v)[i] != v[i];
    }
  }

  lemma {:induction false} CsvNoBreaks(v: seq<string>)
    ensures NoBreaks(Csv(v))
  {
    if v == [] {
    } else {
      SanitizeKeeps(v[|v| - 1]);
      CsvNoBreaks(v[..|v| - 1]);
    }
  }

  lemma {:induction false} SplitOfPlainCsv(v: seq<string>)
    requires v != [] && forall k :: 0 <= k < |v| ==> PlainItem(v[k])
    ensures SplitCsv(Csv(v)) == v
    ensures !StartsBlank(v[0]) ==> !StartsBlank(Csv(v))
    ensures !EndsBlank(v[|v| - 1]) ==> !EndsBlank(Csv(v))
  {
    hide SplitCsv;
    var before, item := v[..|v| - 1], v[|v| - 1];
    SanitizeKeeps(item);
    SplitLast(Csv(before), item);
    if before == [] {
    } else {
      SplitOfPlainCsv(before);
      assert v == before + [item];
    }
  }

  lemma TrimmedIff(s: string)
    ensures Trimmed(s) <==> !StartsBlank(s) && !EndsBlank(s)
    ensures Trim(s) == s <==> Trimmed(s)
    ensures forall c :: c in Trim(s) ==> c in s
  {
    hide Trim;
    TrimPadded(s);
    var l, r := TrimSplit(s);
  }

  /** Splitting the joined list as a header value gives the list back exactly when it has an item,
      none holds a comma or a line break, and it neither starts nor ends with a blank. */
  lemma CsvReadsBackIff(v: seq<string>)
    ensures SplitCsv(Trim(Csv(v))) == v <==> Separable(v)
  {
    hide SplitCsv, Trim, Csv;
    var s := Trim(Csv(v));
    TrimmedIff(Csv(v));
    TrimmedIff(s);
    if Separable(v) {
      SplitOfPlainCsv(v);
    } else if SplitCsv(s) == v {
      CsvNoBreaks(v);
      SplitParts(s);
      TrimIsTrimmed(Csv(v));
    }
  }

  lemma TrimIsTrimmed(s: string)
    ensures Trimmed(Trim(s))
  {
  }

  /** The subject survives exactly when it is trimmed and without line breaks. */
  lemma SubjectReadsBackIff(sub: string)
    ensures Trim(Sanitize(sub)) == sub <==> Trimmed(sub) && NoBreaks(sub)
  {
    hide Trim, Sanitize;
    SanitizeKeeps(sub);
    TrimmedIff(Sanitize(sub));
    TrimmedIff(sub);
    if Trim(Sanitize(sub)) == sub {
      TrimIsTrimmed(Sanitize(sub));
    }
  }

  // ------------------------------------------------- the identity in the table

  function ListSeen(headers: map<string, string>, name: string): seq<string> {
    if name in headers then SplitCsv(headers[name]) else []
  }

  /** The identity an upstream reads: what is not written is empty. */
  function IdentitySeen(headers: map<string, string>): AuthInfo {
    AuthInfo(true, if "x-auth-sub" in headers then headers["x-auth-sub"] else "",
             ListSeen(headers, "x-auth-roles"), ListSeen(headers, "x-auth-scopes"))
  }

  /** An identity the headers can carry. */
  ghost predicate Portable(auth: AuthInfo) {
    && Trimmed(auth.sub) && NoBreaks(auth.sub)
    && (auth.roles == [] || Separable(auth.roles))
    && (auth.permissions == [] || Separable(auth.permissions))
  }

  lemma NameOfRow(rows: seq<Row>, i: nat)
    requires i < |rows| && forall a, b :: 0 <= a < b < |rows| ==> Apart(rows[a].name, rows[b].name)
    ensures rows[i].name in Table(rows) <==> rows[i].present
    ensures rows[i].present ==> Table(rows)[rows[i].name] == Trim(rows[i].value)
  {
    hide Table, Trim;
    TableHolds(rows);
    if rows[i].name in Table(rows) {
      var k :| 0 <= k < |rows| && rows[k].present && rows[k].name == rows[i].name;
      assert k < i ==> Apart(rows[k].name, rows[i].name);
      assert i < k ==> Apart(rows[i].name, rows[k].name);
    }
  }

  /** What an upstream finds in the header table: which names, and the value of each that is not about the
      caller. */
  ghost predicate HeadersSay(headers: map<string, string>, host: string, contentType: string, length: nat,
                             clientIp: string, auth: AuthInfo)
  {
    && "host" in headers && headers["host"] == Trim(Sanitize(host))
    && "content-length" in headers && headers["content-length"] == Decimal(length)
    && "x-forwarded-for" in headers && headers["x-forwarded-for"] == Trim(Sanitize(clientIp))
    && "connection" in headers && headers["connection"] == "close"
    && ("content-type" in headers <==> contentType != "")
    && (contentType != "" ==> headers["content-type"] == Trim(Sanitize(contentType)))
    && ("x-auth-sub" in headers <==> auth.sub != "")
    && ("x-auth-roles" in headers <==> auth.roles != [])
    && ("x-auth-scopes" in headers <==> auth.permissions != [])
    && (forall n :: n in headers ==>
          n in {"host", "content-type", "content-length", "x-forwarded-for", "x-auth-sub", "x-auth-roles",
                "x-auth-scopes", "connection"})
  }

  lemma HeadersWritten(host: string, req: HttpRequest, auth: AuthInfo)
    ensures HeadersSay(Table(UpstreamRows(host, req, auth)), host, req.Header("content-type"), |req.body|, req.clientIp,
                       auth)
  {
    hide Table, Trim, Csv, Sanitize, Decimal, HttpRequest.Header, Apart;
    var rows := UpstreamRows(host, req, auth);
    UpstreamNamesApart(host, req, auth);
    NameOfRow(rows, 0);
    NameOfRow(rows, 1);
    NameOfRow(rows, 2);
    NameOfRow(rows, 3);
    NameOfRow(rows, 4);
    NameOfRow(rows, 5);
    NameOfRow(rows, 6);
    NameOfRow(rows, 7);
    NamesWritten(host, req, auth);
    DigitsTrimmed(Decimal(|req.body|));
    CloseTrimmed();
  }

  lemma NamesWritten(host: string, req: HttpRequest, auth: AuthInfo)
    ensures forall n :: n in Table(UpstreamRows(host, req, auth)) ==>
              n in {"host", "content-type", "content-length", "x-forwarded-for", "x-auth-sub", "x-auth-roles",
                    "x-auth-scopes", "connection"}
  {
    hide Table, UpstreamRows;
    var rows := UpstreamRows(host, req, auth);
    UpstreamNamesApart(host, req, auth);
    TableHolds(rows);
    RowNames(host, req, auth);
  }

  lemma RowNames(host: string, req: HttpRequest, auth: AuthInfo)
    ensures forall i :: 0 <= i < 8 ==>
              UpstreamRows(host, req, auth)[i].name
              in {"host", "content-type", "content-length", "x-forwarded-for", "x-auth-sub", "x-auth-roles",
                  "x-auth-scopes", "connection"}
  {
    hide Csv, Sanitize, Decimal, HttpRequest.Header;
  }

  lemma DigitsTrimmed(s: string)
    requires AllDigits(s)
    ensures Trim(s) == s
  {
    hide Trim;
    TrimPadded(s);
  }

  lemma CloseTrimmed()
    ensures Trim("close") == "close"
  {
    hide Trim;
    TrimPadded("close");
  }

  /** What an upstream reads of any identity. */
  lemma IdentityHeaders(host: string, req: HttpRequest, auth: AuthInfo)
    ensures IdentitySeen(Table(UpstreamRows(host, req, auth))) ==
            AuthInfo(true, if auth.sub == "" then "" else Trim(Sanitize(auth.sub)),
                     if auth.roles == [] then [] else SplitCsv(Trim(Csv(auth.roles))),
                     if auth.permissions == [] then [] else SplitCsv(Trim(Csv(auth.permissions))))
  {
    hide Table, Trim, SplitCsv, Csv, Sanitize, Decimal, HttpRequest.Header, Apart;
    var rows := UpstreamRows(host, req, auth);
    UpstreamNamesApart(host, req, auth);
    NameOfRow(rows, 4);
    NameOfRow(rows, 5);
    NameOfRow(rows, 6);
  }

  /** The upstream reads the identity that was checked exactly when it is portable. */
  lemma IdentitySurvivesIff(host: string, req: HttpRequest, auth: AuthInfo)
    ensures IdentitySeen(Table(UpstreamRows(host, req, auth))) == auth.(ok := true) <==> Portable(auth)
  {
    hide Table, Trim, SplitCsv, Csv, Sanitize, UpstreamRows, Separable, NoBreaks, IdentitySeen, Trimmed;
    IdentityHeaders(host, req, auth);
    SubjectReadsBackIff(auth.sub);
    EmptySubject();
    CsvReadsBackIff(auth.roles);
    CsvReadsBackIff(auth.permissions);
  }

  lemma EmptySubject()
    ensures Trimmed("") && NoBreaks("")
  {
  }

  // ------------------------------------------------------- one that does not

  /** A token with one comma in one role and one permission to read. */
  const COMMA_ROLE: Claims := map["roles" := Arr([Str("viewer,admin")]), "permissions" := Arr([Str("users:read")])]

  lemma CommaRole()
    ensures Identity(COMMA_ROLE) == AuthInfo(true, "", ["viewer,admin"], ["users:read"])
  {
    OneString("viewer,admin");
    OneString("users:read");
    assert "roles"[0] != "permissions"[0] && "sub"[0] != "permissions"[0] && "sub"[0] != "roles"[0];
  }

  lemma OneString(s: string)
    ensures StringsOf([Str(s)]) == [s]
  {
    var items := [Str(s)];
    assert items[..0] == [];
  }

  /** The gateway lets it read users and nothing else, so that its requests are forwarded; the upstream
      reads the role "admin", which opens everything and which the token does not carry. */
  lemma CommaMakesTwoRoles(host: string, req: HttpRequest)
    ensures var auth := Identity(COMMA_ROLE);
            var seen := IdentitySeen(Table(UpstreamRows(host, req, auth)));
            && HasScope(auth, "users", "users:read") && !HasScope(auth, "users", "users:write")
            && "admin" !in auth.roles
            && seen.roles == ["viewer", "admin"] && seen.permissions == auth.permissions
            && forall area, required :: HasScope(seen, area, required)
  {
    hide Table, UpstreamRows, Csv, SplitCsv, Trim, Identity, COMMA_ROLE, HasScope, Separable, IdentitySeen;
    CommaRole();
    var auth := AuthInfo(true, "", ["viewer,admin"], ["users:read"]);
    IdentityHeaders(host, req, auth);
    assert "viewer,admin" == "viewer" + "," + "admin";
    SameCsv("viewer", "admin");
    TwoItems();
    CsvReadsBackIff(["viewer", "admin"]);
    CsvReadsBackIff(["users:read"]);
    ReaderRights();
    AdminRights();
  }

  lemma TwoItems()
    ensures Separable(["viewer", "admin"]) && Separable(["users:read"])
  {
  }

  lemma ReaderRights()
    ensures var auth := AuthInfo(true, "", ["viewer,admin"], ["users:read"]);
            && HasScope(auth, "users", "users:read") && !HasScope(auth, "users", "users:write")
            && "admin" !in auth.roles
  {
    assert ["users:read"][0] == "users:read";
    assert "users:read"[6] != "users:write"[6];
    assert GranularPrefix("users") == "user:" && "user:"[4] != "users:read"[4];
    assert |"viewer,admin"| != |"admin"|;
  }

  lemma AdminRights()
    ensures forall area, required :: HasScope(AuthInfo(true, "", ["viewer", "admin"], ["users:read"]), area, required)
  {
    assert ["viewer", "admin"][1] == "admin";
  }

  lemma SameCsv(a: string, b: string)
    ensures Csv([a + "," + b]) == Csv([a, b])
  {
    assert [a, b][..1] == [a];
    assert Sanitize(a + "," + b) == Sanitize(a) + "," + Sanitize(b);
  }
}
