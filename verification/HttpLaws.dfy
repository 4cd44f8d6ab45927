/** What the request parser accepts, and that it inverts printing. */
module HttpLaws {
  import opened Wrappers
  import opened Text
  import opened Http

  // ------------------------------------------------------------------- lines

  /** Every line followed by CR LF. */
  function Join(lines: seq<string>): string {
    if lines == [] then "" else lines[0] + CRLF + Join(lines[1..])
  }

  ghost predicate FullLine(s: string) { s != "" && OneLine(s) }

  ghost predicate FullLines(lines: seq<string>) {
    forall i :: 0 <= i < |lines| ==> FullLine(lines[i])
  }

  lemma JoinCons(line: string, lines: seq<string>, tail: string)
    ensures Join([line] + lines) + tail == line + CRLF + (Join(lines) + tail)
  {
    assert ([line] + lines)[1..] == lines;
  }

  /** A full line is never mistaken for a break at its front. */
  lemma FullLineFirst(line: string, rest: string)
    requires FullLine(line)
    ensures !MatchAt(line + CRLF + rest, CRLF, 0)
  {
    FirstBreak(line, rest);
  }

  /** A blank line starts no earlier than the end of the first line. */
  lemma NoBlankInLine(line: string, rest: string, k: nat)
    requires OneLine(line) && k < |line|
    ensures !MatchAt(line + CRLF + rest, BLANK_LINE, k)
  {
    hide MatchAt, Find;
    FirstBreak(line, rest);
    BlankLineAt(line + CRLF + rest, k);
  }

  lemma BlankAfterLine(line: string, body: string)
    requires OneLine(line)
    ensures Find(line + CRLF + (CRLF + body), BLANK_LINE, 0) == Some(|line|)
  {
    hide Find, MatchAt, OneLine;
    var s := line + CRLF + (CRLF + body);
    forall k | 0 <= k < |line| ensures !MatchAt(s, BLANK_LINE, k) {
      NoBlankInLine(line, CRLF + body, k);
    }
    assert s == line + BLANK_LINE + body;
    MatchMiddle(line, BLANK_LINE, body);
    FindIs(s, BLANK_LINE, 0, |line|);
  }

  lemma BlankAfterMore(line: string, rest: string, e: nat)
    requires OneLine(line)
    requires !MatchAt(rest, CRLF, 0) && Find(rest, BLANK_LINE, 0) == Some(e)
    ensures Find(line + CRLF + rest, BLANK_LINE, 0) == Some(|line| + 2 + e)
  {
    hide Find, MatchAt;
    var s := line + CRLF + rest;
    var n := |line| + 2;
    assert s[n..] == rest;
    forall k | 0 <= k < n + e ensures !MatchAt(s, BLANK_LINE, k) {
      if k < |line| {
        NoBlankInLine(line, rest, k);
      } else if k < n {
        BlankLineAt(s, k);
        CrlfAt(s, k);
        MatchSuffix(s, CRLF, n, n);
      } else {
        MatchSuffix(s, BLANK_LINE, n, k);
      }
    }
    MatchSuffix(s, BLANK_LINE, n, n + e);
    FindIs(s, BLANK_LINE, 0, n + e);
  }

  lemma JoinSplit(lines: seq<string>, tail: string)
    requires lines != []
    ensures Join(lines) + tail == lines[0] + CRLF + (Join(lines[1..]) + tail)
    ensures |Join(lines)| == |lines[0]| + 2 + |Join(lines[1..])|
  {
    Assoc(lines[0] + CRLF, Join(lines[1..]), tail);
  }

  /** In full lines followed by an empty one, the first blank line is the one at the end. */
  lemma {:induction false} FirstBlankLine(lines: seq<string>, body: string)
    requires lines != [] && FullLines(lines)
    ensures |Join(lines)| >= 2
    ensures Find(Join(lines) + (CRLF + body), BLANK_LINE, 0) == Some(|Join(lines)| - 2)
  {
    hide MatchAt, Find, OneLine, Join;
    var line, rest := lines[0], lines[1..];
    JoinSplit(lines, CRLF + body);
    if rest == [] {
      JoinNothing(CRLF + body);
      BlankAfterLine(line, body);
    } else {
      FirstBlankLine(rest, body);
      JoinSplit(rest, CRLF + body);
      FullLineFirst(rest[0], Join(rest[1..]) + (CRLF + body));
      BlankAfterMore(line, Join(rest) + (CRLF + body), |Join(rest)| - 2);
    }
  }

  lemma JoinNothing(tail: string)
    ensures Join([]) == "" && Join([]) + tail == tail
  {
  }

  // ------------------------------------------------------ the header grammar

  /** Header lines stored one after the other, with the parser's limits. */
  function StoreLines(lines: seq<string>, headers: map<string, string>): Option<map<string, string>> {
    if lines == [] then Some(headers)
    else match ParseLine(lines[0])
         case None => None
         case Some(f) =>
           if |headers| > MAX_NAMES_BEFORE_INSERT then None
           else StoreLines(lines[1..], headers[f.name := f.value])
  }

  /** The end of the head: nothing, or an empty line and whatever follows it. */
  ghost predicate EndOfHead(tail: string) { tail == "" || CRLF <= tail }

  lemma NonEmptyRest(line: string, rest: string, headers: map<string, string>)
    requires FullLine(line)
    ensures ParseFields(line + CRLF + rest, headers) ==
            match ParseLine(line)
            case None => None
            case Some(f) =>
              if |headers| > MAX_NAMES_BEFORE_INSERT then None else ParseFields(rest, headers[f.name := f.value])
  {
    hide ParseLine;
    var s := line + CRLF + rest;
    FirstBreak(line, rest);
    assert s[..|line|] == line;
    assert s[|line| + 2..] == rest;
  }

  lemma {:induction false} FieldsOfLines(lines: seq<string>, tail: string, headers: map<string, string>)
    requires FullLines(lines) && EndOfHead(tail)
    ensures ParseFields(Join(lines) + tail, headers) == StoreLines(lines, headers)
  {
    hide ParseLine, ParseFields;
    if lines == [] {
      assert Join(lines) + tail == tail;
      EmptyLineEnds(tail, headers);
    } else {
      assert lines == [lines[0]] + lines[1..];
      JoinCons(lines[0], lines[1..], tail);
      NonEmptyRest(lines[0], Join(lines[1..]) + tail, headers);
      match ParseLine(lines[0]) {
        case None =>
        case Some(f) => FieldsOfLines(lines[1..], tail, headers[f.name := f.value]);
      }
    }
  }

  lemma EmptyLineEnds(tail: string, headers: map<string, string>)
    requires EndOfHead(tail)
    ensures ParseFields(tail, headers) == Some(headers)
  {
    if tail != "" {
      assert MatchAt(tail, CRLF, 0);
    }
  }

  /** Whatever the header loop accepts is lines and an end of head. */
  lemma {:induction false} LinesOfFields(rest: string, headers: map<string, string>)
    returns (lines: seq<string>, tail: string)
    requires ParseFields(rest, headers).Some?
    ensures FullLines(lines) && EndOfHead(tail) && rest == Join(lines) + tail
    decreases |rest|
  {
    hide ParseLine, Find, MatchAt, OneLine, Join;
    JoinNothing(rest);
    if rest == "" {
      lines, tail := [], "";
    } else {
      var eol := Find(rest, CRLF, 0).value;
      MatchFits(rest, CRLF, eol);
      BeforeFirstBreak(rest, eol);
      if eol == 0 {
        lines, tail := [], rest;
      } else {
        var f := ParseLine(rest[..eol]).value;
        var more;
        more, tail := LinesOfFields(rest[eol + 2..], headers[f.name := f.value]);
        lines := [rest[..eol]] + more;
        JoinCons(rest[..eol], more, tail);
      }
    }
  }

  /** A head in the parser's grammar: a request line, header lines, an end of head. */
  ghost predicate HeadParts(head: string, first: string, lines: seq<string>, tail: string) {
    OneLine(first) && FullLines(lines) && EndOfHead(tail) && head == first + CRLF + (Join(lines) + tail)
  }

  lemma ParseOfParts(head: string, first: string, lines: seq<string>, tail: string)
    requires HeadParts(head, first, lines, tail)
    ensures ParseRequest(head) ==
            if ParseRequestLine(first).Some? && StoreLines(lines, map[]).Some?
            then Some(ParseRequestLine(first).value.(headers := StoreLines(lines, map[]).value))
            else None
  {
    hide ParseRequestLine, ParseFields, StoreLines;
    FirstBreak(first, Join(lines) + tail);
    assert head[..|first|] == first;
    assert head[|first| + 2..] == Join(lines) + tail;
    FieldsOfLines(lines, tail, map[]);
  }

  /** The parser accepts exactly the heads of the grammar, and reads them as the grammar says. */
  lemma ParserIsGrammar(head: string, req: HttpRequest)
    ensures ParseRequest(head) == Some(req) <==>
            exists first, lines, tail ::
              && HeadParts(head, first, lines, tail)
              && ParseRequestLine(first) == Some(req.(headers := map[]))
              && StoreLines(lines, map[]) == Some(req.headers)
  {
    hide ParseRequestLine, ParseFields, StoreLines;
    if ParseRequest(head) == Some(req) {
      var e := Find(head, CRLF, 0).value;
      BeforeFirstBreak(head, e);
      var lines, tail := LinesOfFields(head[e + 2..], map[]);
      assert HeadParts(head, head[..e], lines, tail);
      ParseOfParts(head, head[..e], lines, tail);
      LineHasNoHeaders(head[..e]);
    }
    forall first, lines, tail |
      && HeadParts(head, first, lines, tail)
      && ParseRequestLine(first) == Some(req.(headers := map[]))
      && StoreLines(lines, map[]) == Some(req.headers)
      ensures ParseRequest(head) == Some(req)
    {
      ParseOfParts(head, first, lines, tail);
    }
  }

  lemma LineHasNoHeaders(line: string)
    ensures ParseRequestLine(line).Some? ==> ParseRequestLine(line).value.headers == map[]
  {
    hide Words, PathOf, QueryOf;
  }

  // ------------------------------------------------------ lines, literally

  /** Method characters: capital letters and the hyphen. */
  lemma MethodIs(m: string)
    ensures IsMethod(m) <==> forall i :: 0 <= i < |m| ==> m[i] in CAPITALS || m[i] == '-'
  {
    forall c ensures c in CAPITALS <==> 'A' <= c <= 'Z' { CapitalRange(c); }
  }

  lemma CapitalRange(c: char)
    ensures c in CAPITALS <==> 'A' <= c <= 'Z'
  {
    hide CAPITALS;
    forall k | 0 <= k < 26
      ensures |CAPITALS| == 26 && CAPITALS[k] as int == 'A' as int + k
    {
      AlphabetRuns(k);
    }
    AlphabetRuns(0);
    if 'A' <= c <= 'Z' {
      assert CAPITALS[c as int - 'A' as int] == c;
    }
  }

  /** What a request line is, whatever white space separates its words: three of them, a method of capital
      letters and hyphens, a target from "/" on without ".." in its path, a version from "HTTP/" on. */
  lemma RequestLineIs(gaps: seq<string>, ws: seq<string>)
    requires SpreadOut(gaps, ws)
    ensures ParseRequestLine(Spread(gaps, ws)) ==
            if && |ws| == 3
               && (forall i :: 0 <= i < |ws[0]| ==> ws[0][i] in CAPITALS || ws[0][i] == '-')
               && ws[1][0] == '/' && Find(PathOf(ws[1]), "..", 0).None? && "HTTP/" <= ws[2]
            then Some(HttpRequest(ws[0], ws[1], PathOf(ws[1]), QueryOf(ws[1]), ws[2], map[], "", ""))
            else None
  {
    hide Words, Find, PathOf, QueryOf, CAPITALS;
    WordsOfSpread(gaps, ws);
    if |ws| == 3 { MethodIs(ws[0]); }
  }

  /** What a header line is: a name up to the first colon, and after it a value, with or without blanks
      around them; nothing without a colon, without a name, or with a value over 8192 characters. */
  lemma HeaderLineIs(name: string, value: string)
    requires ':' !in name
    ensures ParseLine(name + ":" + value) ==
            if AllBlank(name) || |Trim(value)| > 8192 then None else Some(Field(Lower(Trim(name)), Trim(value)))
    ensures ParseLine(name) == None
  {
    hide Trim, Lower, Find, MatchAt;
    FindChar(name, ':');
    FindCharAfter(name, ':', value);
    var line := name + ":" + value;
    assert line[..|name|] == name && line[|name| + 1..] == value;
    BlankIff(name);
    assert |Lower(Trim(name))| == |Trim(name)|;
  }

  lemma BlankIff(s: string)
    ensures AllBlank(s) <==> Trim(s) == ""
  {
    hide Trim;
    var l, r := TrimSplit(s);
    if AllBlank(s) {
      assert s == "" + "" + s;
      TrimIs("", "", s);
    }
  }

  /** Lines whose names differ only in the case of letters are the same field. */
  lemma NameCaseIgnored(a: string, b: string, value: string)
    requires ':' !in a && ':' !in b && SameButCase(a, b)
    ensures ParseLine(a + ":" + value) == ParseLine(b + ":" + value)
  {
    hide ParseLine, Lower, SameLetter;
    HeaderLineIs(a, value);
    HeaderLineIs(b, value);
    TrimKeepsCase(a, b);
    LowerAlikeIff(Trim(a), Trim(b));
    BlankIff(a);
    BlankIff(b);
  }

  lemma SameLetterBlank(a: char, b: char)
    requires SameLetter(a, b)
    ensures IsBlank(a) <==> IsBlank(b)
  {
    SameLetterIff(a, b);
  }

  lemma {:induction false} TrimLeftKeepsCase(a: string, b: string)
    requires SameButCase(a, b)
    ensures SameButCase(TrimLeft(a), TrimLeft(b))
    decreases |a|
  {
    hide SameLetter;
    if a == "" {
    } else {
      SameLetterBlank(a[0], b[0]);
      if IsBlank(a[0]) { TrimLeftKeepsCase(a[1..], b[1..]); }
    }
  }

  lemma {:induction false} TrimRightKeepsCase(a: string, b: string)
    requires SameButCase(a, b)
    ensures SameButCase(TrimRight(a), TrimRight(b))
    decreases |a|
  {
    hide SameLetter;
    if a == "" {
    } else {
      SameLetterBlank(a[|a| - 1], b[|b| - 1]);
      if IsBlank(a[|a| - 1]) { TrimRightKeepsCase(a[..|a| - 1], b[..|b| - 1]); }
    }
  }

  lemma TrimKeepsCase(a: string, b: string)
    requires SameButCase(a, b)
    ensures SameButCase(Trim(a), Trim(b))
  {
    hide SameButCase;
    TrimLeftKeepsCase(a, b);
    TrimRightKeepsCase(TrimLeft(a), TrimLeft(b));
  }

  // ------------------------------------- what an accepted request looks like

  ghost predicate AcceptableLine(verb: string, target: string, version: string) {
    && IsWord(verb) && IsWord(target) && IsWord(version)
    && IsMethod(verb) && target[0] == '/' && "HTTP/" <= version
    && Find(PathOf(target), "..", 0).None?
  }

  lemma AcceptedLine(line: string)
    ensures ParseRequestLine(line).Some? ==>
              var r := ParseRequestLine(line).value;
              && AcceptableLine(r.verb, r.target, r.version)
              && r == HttpRequest(r.verb, r.target, PathOf(r.target), QueryOf(r.target), r.version, map[], "", "")
  {
  }

  lemma {:induction false} StoredFieldsBounded(lines: seq<string>, headers: map<string, string>)
    requires StoreLines(lines, headers).Some?
    requires |headers| <= MAX_NAMES_BEFORE_INSERT + 1
    requires forall n :: n in headers ==> n != "" && |headers[n]| <= MAX_VALUE
    ensures var h := StoreLines(lines, headers).value;
            |h| <= MAX_NAMES_BEFORE_INSERT + 1 && forall n :: n in h ==> n != "" && |h[n]| <= MAX_VALUE
  {
    if lines == [] {
    } else {
      var f := ParseLine(lines[0]).value;
      assert f.name != "" && |f.value| <= MAX_VALUE;
      assert |headers[f.name := f.value]| <= |headers| + 1;
      StoredFieldsBounded(lines[1..], headers[f.name := f.value]);
    }
  }

  /** No accepted request breaks the parser's limits. */
  lemma AcceptedRequest(head: string)
    requires ParseRequest(head).Some?
    ensures var r := ParseRequest(head).value;
            && AcceptableLine(r.verb, r.target, r.version)
            && r.path == PathOf(r.target) && r.query == QueryOf(r.target) && r.body == "" && r.clientIp == ""
            && |r.headers| <= 101 && forall n :: n in r.headers ==> n != "" && |r.headers[n]| <= 8192
  {
    hide ParseLine, ParseFields, ParseRequestLine;
    var e := Find(head, CRLF, 0).value;
    AcceptedLine(head[..e]);
    var lines, tail := LinesOfFields(head[e + 2..], map[]);
    FieldsOfLines(lines, tail, map[]);
    StoredFieldsBounded(lines, map[]);
  }

  // ------------------------------------------------------- last name wins

  /** Fields assigned one after the other. */
  function FieldMap(fields: seq<Field>): map<string, string> {
    if fields == [] then map[]
    else FieldMap(fields[..|fields| - 1])[fields[|fields| - 1].name := fields[|fields| - 1].value]
  }

  lemma {:induction false} StoredNames(fields: seq<Field>, n: string)
    ensures n in FieldMap(fields) <==> exists i :: 0 <= i < |fields| && fields[i].name == n
  {
    if fields == [] {
    } else {
      var before := fields[..|fields| - 1];
      StoredNames(before, n);
      assert fields == before + [fields[|fields| - 1]];
    }
  }

  lemma {:induction false} StoredValue(fields: seq<Field>, i: nat)
    requires i < |fields|
    requires forall j :: i < j < |fields| ==> fields[j].name != fields[i].name
    ensures fields[i].name in FieldMap(fields) && FieldMap(fields)[fields[i].name] == fields[i].value
  {
    if i == |fields| - 1 {
    } else {
      StoredValue(fields[..|fields| - 1], i);
    }
  }

  /** A name has the value of the last field that carries it; no other name has one. */
  lemma LastFieldWins(fields: seq<Field>)
    ensures forall n :: n in FieldMap(fields) <==> exists i :: 0 <= i < |fields| && fields[i].name == n
    ensures forall i :: 0 <= i < |fields| && (forall j :: i < j < |fields| ==> fields[j].name != fields[i].name)
                        ==> fields[i].name in FieldMap(fields) && FieldMap(fields)[fields[i].name] == fields[i].value
  {
    hide FieldMap;
    forall n ensures n in FieldMap(fields) <==> exists i :: 0 <= i < |fields| && fields[i].name == n {
      StoredNames(fields, n);
    }
    forall i | 0 <= i < |fields| && (forall j :: i < j < |fields| ==> fields[j].name != fields[i].name)
      ensures fields[i].name in FieldMap(fields) && FieldMap(fields)[fields[i].name] == fields[i].value
    {
      StoredValue(fields, i);
    }
  }

  lemma {:induction false} FieldMapSize(fields: seq<Field>)
    ensures |FieldMap(fields)| <= |fields|
  {
    if fields == [] {
    } else {
      FieldMapSize(fields[..|fields| - 1]);
    }
  }

  lemma {:induction false} FieldMapGrows(a: seq<Field>, b: seq<Field>)
    ensures |FieldMap(a)| <= |FieldMap(a + b)|
  {
    if b == [] {
      assert a + b == a;
    } else {
      assert (a + b)[..|a + b| - 1] == a + b[..|b| - 1];
      FieldMapGrows(a, b[..|b| - 1]);
    }
  }

  /** Room for every field: at most 100 different names before the last one. */
  ghost predicate Room(fields: seq<Field>) {
    fields == [] || |FieldMap(fields[..|fields| - 1])| <= 100
  }

  lemma {:induction false} StoreFrom(done: seq<Field>, lines: seq<string>, fields: seq<Field>)
    requires |lines| == |fields| && forall i :: 0 <= i < |lines| ==> ParseLine(lines[i]) == Some(fields[i])
    requires Room(done)
    ensures StoreLines(lines, FieldMap(done)) == if Room(done + fields) then Some(FieldMap(done + fields)) else None
    decreases |lines|
  {
    hide ParseLine;
    if lines == [] {
      assert done + fields == done;
    } else {
      var done' := done + [fields[0]];
      assert done'[..|done'| - 1] == done;
      assert done + fields == done' + fields[1..];
      if |FieldMap(done)| <= MAX_NAMES_BEFORE_INSERT {
        assert forall i :: 0 <= i < |lines| - 1 ==> ParseLine(lines[1..][i]) == Some(fields[1..][i]);
        StoreFrom(done', lines[1..], fields[1..]);
      } else {
        var all := done + fields;
        assert all[..|all| - 1] == done + fields[..|fields| - 1];
        FieldMapGrows(done, fields[..|fields| - 1]);
      }
    }
  }

  lemma {:induction false} StoreStops(lines: seq<string>, headers: map<string, string>, i: nat)
    requires i < |lines| && ParseLine(lines[i]).None?
    ensures StoreLines(lines, headers).None?
    decreases |lines|
  {
    if i == 0 || ParseLine(lines[0]).None? {
    } else {
      var f := ParseLine(lines[0]).value;
      StoreStops(lines[1..], headers[f.name := f.value], i - 1);
    }
  }

  // ------------------------------------------------------------- round trips

  function PrintLine(f: Field): string { f.name + ": " + f.value }

  function PrintLines(fields: seq<Field>): (lines: seq<string>)
    ensures |lines| == |fields|
    ensures forall i :: 0 <= i < |fields| ==> lines[i] == PrintLine(fields[i])
  {
    seq(|fields|, i requires 0 <= i < |fields| => PrintLine(fields[i]))
  }

  function PrintHead(verb: string, target: string, version: string, fields: seq<Field>): string {
    verb + " " + target + " " + version + CRLF + Join(PrintLines(fields))
  }

  /** What can be printed without ending the line or the name early. */
  ghost predicate Printable(f: Field) {
    ':' !in f.name && OneLine(f.name) && OneLine(f.value)
  }

  /** A field as the parser stores it. */
  function Normal(f: Field): Field { Field(Lower(Trim(f.name)), Trim(f.value)) }

  predicate Storable(f: Field) { Normal(f).name != "" && |Normal(f).value| <= 8192 }

  function Normals(fields: seq<Field>): (r: seq<Field>)
    ensures |r| == |fields| && forall i :: 0 <= i < |r| ==> r[i] == Normal(fields[i])
  {
    seq(|fields|, i requires 0 <= i < |fields| => Normal(fields[i]))
  }

  lemma ParsePrintedLine(f: Field)
    requires Printable(f)
    ensures FullLine(PrintLine(f))
    ensures ParseLine(PrintLine(f)) == if Storable(f) then Some(Normal(f)) else None
  {
    hide Lower, Trim, MatchAt;
    var line := PrintLine(f);
    assert line == f.name + [':'] + (" " + f.value);
    FindCharAfter(f.name, ':', " " + f.value);
    assert line[..|f.name|] == f.name;
    assert line[|f.name| + 1..] == " " + f.value;
    TrimPadded(f.value);
    assert line == f.name + (": " + f.value);
    OneLineWithout(": ");
    OneLineConcat(": ", f.value);
    OneLineConcat(f.name, ": " + f.value);
  }

  lemma RequestLineOfWords(verb: string, target: string, version: string)
    requires IsWord(verb) && IsWord(target) && IsWord(version)
    ensures OneLine(verb + " " + target + " " + version)
    ensures ParseRequestLine(verb + " " + target + " " + version) ==
            if AcceptableLine(verb, target, version)
            then Some(HttpRequest(verb, target, PathOf(target), QueryOf(target), version, map[], "", ""))
            else None
  {
    var line := verb + " " + target + " " + version;
    ThreeWords(verb, target, version);
    forall i | 0 <= i < |line| ensures line[i] != '\r' {
      assert line[i] == ' ' || line[i] in verb || line[i] in target || line[i] in version;
    }
    OneLineWithout(line);
  }

  /** Parsing printed fields, in any number and with any repetitions: accepted exactly when the
      request line is acceptable, every field storable, and the names fit; the last one wins. */
  lemma ParsePrinted(verb: string, target: string, version: string, fields: seq<Field>)
    requires IsWord(verb) && IsWord(target) && IsWord(version)
    requires forall i :: 0 <= i < |fields| ==> Printable(fields[i])
    ensures ParseRequest(PrintHead(verb, target, version, fields)) ==
            if && AcceptableLine(verb, target, version)
               && (forall i :: 0 <= i < |fields| ==> Storable(fields[i]))
               && Room(Normals(fields))
            then Some(HttpRequest(verb, target, PathOf(target), QueryOf(target), version,
                                  FieldMap(Normals(fields)), "", ""))
            else None
  {
    hide Storable, Printable, PrintLine, Normal, ParseLine, ParseRequestLine, ParseRequest, StoreLines, AcceptableLine,
         PathOf, QueryOf, IsWord, FieldMap, Room;
    var first := verb + " " + target + " " + version;
    var lines := PrintLines(fields);
    var head := PrintHead(verb, target, version, fields);
    RequestLineOfWords(verb, target, version);
    forall i | 0 <= i < |fields|
      ensures FullLine(lines[i])
      ensures ParseLine(lines[i]) == if Storable(fields[i]) then Some(Normals(fields)[i]) else None
    {
      ParsePrintedLine(fields[i]);
    }
    assert HeadParts(head, first, lines, "");
    ParseOfParts(head, first, lines, "");
    if forall i :: 0 <= i < |fields| ==> Storable(fields[i]) {
      NoFieldsYet();
      StoreFrom([], lines, Normals(fields));
      assert [] + Normals(fields) == Normals(fields);
    } else {
      var i :| 0 <= i < |fields| && !Storable(fields[i]);
      StoreStops(lines, map[], i);
    }
  }

  lemma NoFieldsYet()
    ensures Room([]) && FieldMap([]) == map[]
  {
  }

  /** A field that parsing leaves as it is. */
  predicate InNormalForm(f: Field) {
    f.name != "" && Trimmed(f.name) && Lower(f.name) == f.name && Trimmed(f.value) && |f.value| <= 8192
  }

  lemma NormalFormFixed(f: Field)
    requires InNormalForm(f)
    ensures Normal(f) == f && Storable(f)
  {
    hide Trim, Lower;
    TrimPadded(f.name);
    TrimPadded(f.value);
  }

  /** Printing a request with its headers in any order, then parsing, gives the request back. */
  lemma RequestRoundTrip(req: HttpRequest, fields: seq<Field>)
    requires AcceptableLine(req.verb, req.target, req.version)
    requires req.path == PathOf(req.target) && req.query == QueryOf(req.target) && req.body == "" && req.clientIp == ""
    requires |fields| <= 101 && FieldMap(fields) == req.headers
    requires forall i :: 0 <= i < |fields| ==> Printable(fields[i]) && InNormalForm(fields[i])
    ensures ParseRequest(PrintHead(req.verb, req.target, req.version, fields)) == Some(req)
  {
    hide ParseRequest, PrintHead, PathOf, QueryOf, Normal, Storable, Printable, InNormalForm, FieldMap;
    forall i | 0 <= i < |fields| ensures Normal(fields[i]) == fields[i] && Storable(fields[i]) {
      NormalFormFixed(fields[i]);
    }
    assert Normals(fields) == fields;
    if fields != [] {
      FieldMapSize(fields[..|fields| - 1]);
    }
    ParsePrinted(req.verb, req.target, req.version, fields);
  }

  // --------------------------------- accepted requests can be printed again

  /** What a header line gives is a field that parsing leaves as it is. */
  lemma ParsedField(line: string)
    requires OneLine(line) && ParseLine(line).Some?
    ensures Printable(ParseLine(line).value) && InNormalForm(ParseLine(line).value)
  {
    hide Trim, Lower, Find, MatchAt, OneLine, Trimmed;
    FindChar(line, ':');
    var colon := Find(line, ":", 0).value;
    assert line[..colon] == line[0..colon] && line[colon + 1..] == line[colon + 1..|line|];
    OneLinePart(line, 0, colon);
    OneLinePart(line, colon + 1, |line|);
    TrimmedPart(line[..colon]);
    TrimmedPart(line[colon + 1..]);
    LowerOneLine(Trim(line[..colon]));
    LowerLower(Trim(line[..colon]));
  }

  lemma TrimmedPart(s: string)
    ensures Trimmed(Trim(s))
    ensures OneLine(s) ==> OneLine(Trim(s))
    ensures ':' !in s ==> ':' !in Trim(s)
  {
    hide Trim, OneLine;
    var l, r := TrimSplit(s);
    if OneLine(s) { TrimOneLine(s); }
  }

  /** A header table of printable fields in normal form. */
  ghost predicate NormalTable(headers: map<string, string>) {
    forall n :: n in headers ==> Printable(Field(n, headers[n])) && InNormalForm(Field(n, headers[n]))
  }

  lemma {:induction false} StoredNormal(lines: seq<string>, headers: map<string, string>)
    requires FullLines(lines) && NormalTable(headers) && StoreLines(lines, headers).Some?
    ensures NormalTable(StoreLines(lines, headers).value)
  {
    hide ParseLine, Printable, InNormalForm;
    if lines == [] {
    } else {
      ParsedField(lines[0]);
      var f := ParseLine(lines[0]).value;
      assert Field(f.name, f.value) == f;
      StoredNormal(lines[1..], headers[f.name := f.value]);
    }
  }

  lemma AcceptedTable(head: string)
    requires ParseRequest(head).Some?
    ensures NormalTable(ParseRequest(head).value.headers)
  {
    hide ParseLine, ParseFields, ParseRequestLine, NormalTable;
    var e := Find(head, CRLF, 0).value;
    var lines, tail := LinesOfFields(head[e + 2..], map[]);
    FieldsOfLines(lines, tail, map[]);
    EmptyTable();
    StoredNormal(lines, map[]);
  }

  lemma EmptyTable()
    ensures NormalTable(map[])
  {
  }

  /** No name in an accepted request has a capital letter. */
  lemma AcceptedNamesAreSmall(head: string)
    requires ParseRequest(head).Some?
    ensures forall n :: n in ParseRequest(head).value.headers ==> forall i :: 0 <= i < |n| ==> n[i] !in CAPITALS
  {
    hide ParseRequest, Lower, CAPITALS;
    AcceptedTable(head);
    forall n | n in ParseRequest(head).value.headers ensures forall i :: 0 <= i < |n| ==> n[i] !in CAPITALS {
      LowerFixedIff(n);
    }
  }

  /** Fields with the same values whose names differ only in the case of letters. */
  ghost predicate SameFieldsButCase(a: seq<Field>, b: seq<Field>) {
    |a| == |b| && forall i :: 0 <= i < |a| ==> a[i].value == b[i].value && SameButCase(a[i].name, b[i].name)
  }

  /** How a client capitalises its header names makes no difference to the request that is read. */
  lemma HeaderCaseIgnored(verb: string, target: string, version: string, a: seq<Field>, b: seq<Field>)
    requires IsWord(verb) && IsWord(target) && IsWord(version)
    requires SameFieldsButCase(a, b)
    requires forall i :: 0 <= i < |a| ==> Printable(a[i]) && Printable(b[i])
    ensures ParseRequest(PrintHead(verb, target, version, a)) == ParseRequest(PrintHead(verb, target, version, b))
  {
    hide ParseRequest, PrintHead, IsWord, Printable, SameButCase, Trim, Lower, FieldMap, Room;
    ParsePrinted(verb, target, version, a);
    ParsePrinted(verb, target, version, b);
    forall i | 0 <= i < |a| ensures Normal(a[i]) == Normal(b[i]) {
      TrimKeepsCase(a[i].name, b[i].name);
      LowerAlikeIff(Trim(a[i].name), Trim(b[i].name));
    }
    assert Normals(a) == Normals(b);
    assert forall i :: 0 <= i < |a| ==> (Storable(a[i]) <==> Storable(b[i]));
  }

  /** The entries of a table, each once, in any order. */
  ghost predicate Lists(fields: seq<Field>, headers: map<string, string>) {
    && (forall i :: 0 <= i < |fields| ==> fields[i].name in headers && headers[fields[i].name] == fields[i].value)
    && (forall i, j :: 0 <= i < j < |fields| ==> fields[i].name != fields[j].name)
    && (forall n :: n in headers ==> exists i :: 0 <= i < |fields| && fields[i].name == n)
  }

  lemma ListOneMore(rest: seq<Field>, headers: map<string, string>, n: string)
    requires n in headers && Lists(rest, headers - {n})
    ensures Lists(rest + [Field(n, headers[n])], headers)
  {
    var fields := rest + [Field(n, headers[n])];
    forall m | m in headers ensures exists i :: 0 <= i < |fields| && fields[i].name == m {
      if m == n {
        assert fields[|rest|].name == m;
      } else {
        assert m in headers - {n};
        var i :| 0 <= i < |rest| && rest[i].name == m;
        assert fields[i].name == m;
      }
    }
  }

  lemma NothingListed()
    ensures Lists([], map[])
  {
  }

  /** Every table can be listed. */
  lemma {:induction false} SomeList(headers: map<string, string>) returns (fields: seq<Field>)
    ensures Lists(fields, headers)
    decreases |headers|
  {
    hide Lists;
    if headers == map[] {
      fields := [];
      NothingListed();
    } else {
      var n :| n in headers;
      var rest := SomeList(headers - {n});
      ListOneMore(rest, headers, n);
      fields := rest + [Field(n, headers[n])];
    }
  }

  lemma ListedTable(fields: seq<Field>, headers: map<string, string>)
    requires Lists(fields, headers)
    ensures FieldMap(fields) == headers
  {
    hide FieldMap;
    LastFieldWins(fields);
  }

  lemma {:induction false} ListSize(fields: seq<Field>)
    requires forall i, j :: 0 <= i < j < |fields| ==> fields[i].name != fields[j].name
    ensures |FieldMap(fields)| == |fields|
  {
    if fields == [] {
    } else {
      var before := fields[..|fields| - 1];
      ListSize(before);
      StoredNames(before, fields[|fields| - 1].name);
    }
  }

  /** Printing any accepted request, its headers in any order, and parsing that gives it back. */
  lemma AcceptedReprints(head: string, fields: seq<Field>)
    requires ParseRequest(head).Some? && Lists(fields, ParseRequest(head).value.headers)
    ensures var req := ParseRequest(head).value;
            ParseRequest(PrintHead(req.verb, req.target, req.version, fields)) == Some(req)
  {
    hide ParseRequest, PrintHead, FieldMap, Printable, InNormalForm, AcceptableLine;
    var req := ParseRequest(head).value;
    AcceptedRequest(head);
    AcceptedTable(head);
    ListedTable(fields, req.headers);
    ListSize(fields);
    forall i | 0 <= i < |fields| ensures Printable(fields[i]) && InNormalForm(fields[i]) {
      assert fields[i] == Field(fields[i].name, req.headers[fields[i].name]);
    }
    RequestRoundTrip(req, fields);
  }

  // -------------------------------------------- where the head is cut

  lemma {:induction false} JoinEndsInBreak(first: string, lines: seq<string>)
    ensures var s := first + CRLF + Join(lines); MatchAt(s, CRLF, |s| - 2)
    decreases |lines|
  {
    var s := first + CRLF + Join(lines);
    if lines == [] {
      assert s[|s| - 2..|s|] == CRLF;
    } else {
      var s' := lines[0] + CRLF + Join(lines[1..]);
      assert Join(lines) == s';
      JoinEndsInBreak(lines[0], lines[1..]);
      assert s[|s| - 2..|s|] == s'[|s'| - 2..|s'|];
    }
  }

  /** No text in front of the first blank line has a line break where a head needs its last one. */
  lemma NoBreakBeforeCut(stream: string, e: nat, p: string, tail: string)
    requires Find(stream, BLANK_LINE, 0) == Some(e)
    requires stream[..e] == p + tail
    requires MatchAt(p, CRLF, |p| - 2)
    ensures !EndOfHead(tail)
  {
    if EndOfHead(tail) {
      var i := |p| - 2;
      CrlfAt(p, i);
      assert stream[i] == p[i] && stream[i + 1] == p[i + 1];
      CrlfAt(stream, i);
      BlankLineAt(stream, e);
      CrlfAt(stream, e);
      if tail != "" {
        assert stream[i + 2] == tail[0] && stream[i + 3] == tail[1];
      }
      CrlfAt(stream, i + 2);
      BlankLineAt(stream, i);
    }
  }

  /** Cut in front of the blank line, as HandleClient.cpp cuts it, no head at all parses:
      the parser wants the line break that the cut takes away. */
  lemma CutBeforeBlankLineRejected(stream: string, e: nat)
    requires Find(stream, BLANK_LINE, 0) == Some(e)
    ensures e <= |stream| && ParseRequest(stream[..e]) == None
  {
    hide ParseRequestLine, ParseFields, MatchAt, Find;
    MatchFits(stream, BLANK_LINE, e);
    var head := stream[..e];
    if ParseRequest(head).Some? {
      var first, lines, tail := PartsOfHead(head);
      var p := first + CRLF + Join(lines);
      assert head == p + tail;
      JoinEndsInBreak(first, lines);
      NoBreakBeforeCut(stream, e, p, tail);
    }
  }

  lemma PartsOfHead(head: string) returns (first: string, lines: seq<string>, tail: string)
    requires ParseRequest(head).Some?
    ensures HeadParts(head, first, lines, tail)
  {
    hide ParseRequestLine, ParseFields;
    var b := Find(head, CRLF, 0).value;
    BeforeFirstBreak(head, b);
    first := head[..b];
    lines, tail := LinesOfFields(head[b + 2..], map[]);
  }

  /** Cut two characters later, as Http.h documents, a printed head followed by an empty line
      and any body is cut exactly at its end. */
  lemma CutAfterLastBreak(verb: string, target: string, version: string, fields: seq<Field>, body: string)
    requires IsWord(verb) && IsWord(target) && IsWord(version)
    requires forall i :: 0 <= i < |fields| ==> Printable(fields[i])
    ensures var head := PrintHead(verb, target, version, fields);
            var stream := head + (CRLF + body);
            && |head| >= 2
            && Find(stream, BLANK_LINE, 0) == Some(|head| - 2)
            && stream[..|head|] == head && stream[|head| - 2 + 4..] == body
  {
    hide ParseRequestLine, ParseLine;
    var first := verb + " " + target + " " + version;
    RequestLineOfWords(verb, target, version);
    var lines := [first] + PrintLines(fields);
    forall i | 0 <= i < |fields| ensures FullLine(PrintLines(fields)[i]) {
      ParsePrintedLine(fields[i]);
    }
    var head := PrintHead(verb, target, version, fields);
    JoinCons(first, PrintLines(fields), "");
    assert Join(lines) + "" == Join(lines);
    assert head == Join(lines);
    FirstBlankLine(lines, body);
  }
}
