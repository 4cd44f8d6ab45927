/** Reading an upstream response (Proxy.cpp), and that printing it again loses nothing. */
module Relay {
  import opened Wrappers
  import opened Text
  import opened Numbers
  import opened Http
  import opened HttpLaws
  import opened Response

  const TYPE_KEY := "\r\ncontent-type:"
  const DEFAULT_TYPE := "application/octet-stream"

  /** What the gateway keeps of an upstream response. */
  datatype Relayed = Relayed(status: nat, contentType: string, body: string)

  datatype ReadError = IoFailed | BadResponse | BadStatus

  /** The number between the first and the second space, 0 when there is none. */
  function StatusCode(line: string): int {
    match Find(line, " ", 0)
    case None => 0
    case Some(sp1) =>
      var code := match Find(line, " ", sp1 + 1)
                  case None => line[sp1 + 1..]
                  case Some(sp2) => line[sp1 + 1..sp2];
      match Stoi(code)
      case None => 0
      case Some(v) => v
  }

  function FirstLine(head: string): string {
    match Find(head, CRLF, 0)
    case None => head
    case Some(eol) => head[..eol]
  }

  /** The trimmed value of the first content-type line, empty when there is none. */
  function ContentTypeOf(head: string): string {
    var lower := Lower(head);
    match Find(lower, TYPE_KEY, 0)
    case None => ""
    case Some(pos) =>
      var vs := pos + |TYPE_KEY|;
      match Find(lower, CRLF, vs)
      case None => Trim(head[vs..])
      case Some(ve) => Trim(head[vs..ve])
  }

  function ReadResponse(raw: string): Result<Relayed, ReadError> {
    if raw == "" then Err(IoFailed)
    else match Find(raw, BLANK_LINE, 0)
         case None => Err(BadResponse)
         case Some(eoh) =>
           var head := raw[..eoh];
           var code := StatusCode(FirstLine(head));
           if code < 100 || code > 599 then Err(BadStatus)
           else
             var upType := ContentTypeOf(head);
             Ok(Relayed(code, if upType == "" then DEFAULT_TYPE else upType, raw[eoh + 4..]))
  }

  method ReadStatus(statusLine: string) returns (code: int)
    ensures code == StatusCode(statusLine)
  {
    code := 0;
    var sp1 := Find(statusLine, " ", 0);
    if sp1.Some? {
      var sp2 := Find(statusLine, " ", sp1.value + 1);
      var codeText := if sp2.None? then statusLine[sp1.value + 1..] else statusLine[sp1.value + 1..sp2.value];
      var v := Stoi(codeText);
      if v.Some? { code := v.value; }
    }
  }

  method ReadType(head: string) returns (upType: string)
    ensures upType == ContentTypeOf(head)
  {
    hide Trim;
    var lower := ToLower(head);
    upType := "";
    var pos := Find(lower, TYPE_KEY, 0);
    if pos.Some? {
      var vs := pos.value + |TYPE_KEY|;
      var ve := Find(lower, CRLF, vs);
      if ve.None? {
        upType := TrimStr(head[vs..]);
      } else {
        upType := TrimStr(head[vs..ve.value]);
      }
    }
  }

  /** The tail of `forwardRequest`, from the complete upstream bytes to the result. */
  method ReadUpstream(raw: string) returns (r: Result<Relayed, ReadError>)
    ensures r == ReadResponse(raw)
  {
    hide StatusCode, ContentTypeOf;
    if raw == "" { return Err(IoFailed); }
    var eoh := Find(raw, BLANK_LINE, 0);
    if eoh.None? { return Err(BadResponse); }
    var head := raw[..eoh.value];
    var eol := Find(head, CRLF, 0);
    var statusLine := if eol.None? then head else head[..eol.value];
    var code := ReadStatus(statusLine);
    if code < 100 || code > 599 { return Err(BadStatus); }
    var upType := ReadType(head);
    return Ok(Relayed(code, if upType == "" then DEFAULT_TYPE else upType, raw[eoh.value + 4..]));
  }

  /** The response the gateway answers with for a relayed one. */
  function Answer(x: Relayed): HttpResponse {
    HttpResponse(x.status, [Field("content-type", x.contentType)], x.body)
  }

  // -------------------------------------------------------------------- laws

  lemma StatusLineReads(status: nat)
    requires status <= 599
    ensures OneLine(StatusLine(status)) && StatusLine(status) != ""
    ensures StatusCode(StatusLine(status)) == status
  {
    hide OneLine, StatusLine, StatusCode, Stoi, Decimal;
    StatusLineOneLine(status);
    StatusLineParts(status);
    StoiOfDecimal(status);
    StatusCodeReads(Decimal(status), ReasonPhrase(status));
  }

  lemma StatusLineParts(status: nat)
    ensures StatusLine(status) == "HTTP/1.1 " + (Decimal(status) + " " + ReasonPhrase(status))
  {
    hide ReasonPhrase, Decimal;
  }

  lemma StatusLineOneLine(status: nat)
    ensures OneLine(StatusLine(status)) && StatusLine(status) != ""
  {
    hide ReasonPhrase, Decimal, OneLine;
    ReasonOneLine(status);
    var front := "HTTP/1.1 " + Decimal(status) + " ";
    OneLineWithout(front);
    OneLineConcat(front, ReasonPhrase(status));
  }

  /** The number between the first two spaces of a status line. */
  lemma StatusCodeReads(digits: string, reason: string)
    requires ' ' !in digits && Stoi(digits).Some?
    ensures StatusCode("HTTP/1.1 " + (digits + " " + reason)) == Stoi(digits).value
  {
    hide Stoi, MatchAt;
    var rest := digits + " " + reason;
    var line := "HTTP/1.1 " + rest;
    assert line == "HTTP/1.1" + [' '] + rest;
    FindCharAfter("HTTP/1.1", ' ', rest);
    FindShift(line, " ", 9);
    assert line[9..] == digits + [' '] + reason;
    FindCharAfter(digits, ' ', reason);
    assert line[9..9 + |digits|] == digits;
  }

  lemma KeyStartsWithBreak(s: string, k: int)
    requires MatchAt(s, TYPE_KEY, k)
    ensures MatchAt(s, CRLF, k)
  {
    var key := s[k..k + |TYPE_KEY|];
    assert key[0] == '\r' && key[1] == '\n';
    CrlfAt(s, k);
  }

  /** The key is first found at the end of the first line when the next line carries it. */
  lemma TypeKeyFound(first: string, value: string)
    requires OneLine(first)
    ensures Find(Lower(first + TYPE_KEY + value), TYPE_KEY, 0) == Some(|first|)
  {
    hide Find, MatchAt, OneLine;
    var head := first + TYPE_KEY + value;
    var lower := Lower(head);
    assert head == first + CRLF + ("content-type:" + value);
    FirstBreak(first, "content-type:" + value);
    LowerFind(head, 0);
    forall k | 0 <= k < |first| ensures !MatchAt(lower, TYPE_KEY, k) {
      if MatchAt(lower, TYPE_KEY, k) { KeyStartsWithBreak(lower, k); }
    }
    LowerConcat(first, TYPE_KEY);
    LowerConcat(first + TYPE_KEY, value);
    LowerFixed(TYPE_KEY);
    MatchMiddle(Lower(first), TYPE_KEY, Lower(value));
    FindIs(lower, TYPE_KEY, 0, |first|);
  }

  /** The content type on the line after `first` is found, whatever follows. */
  lemma TypeLineReads(first: string, ct: string, rest: string)
    requires OneLine(first) && OneLine(ct)
    ensures ContentTypeOf(first + TYPE_KEY + (" " + ct + CRLF + rest)) == Trim(ct)
  {
    hide Find, MatchAt, Trim, OneLine;
    var head := first + TYPE_KEY + (" " + ct + CRLF + rest);
    var vs := |first| + |TYPE_KEY|;
    TypeKeyFound(first, " " + ct + CRLF + rest);
    assert head[vs..] == (" " + ct) + CRLF + rest;
    OneLineWithout(" ");
    OneLineConcat(" ", ct);
    FirstBreak(" " + ct, rest);
    FindShift(head, CRLF, vs);
    LowerFind(head, vs);
    assert head[vs..vs + 1 + |ct|] == " " + ct;
    TrimPadded(ct);
  }

  // --------------------------------------------- what the reader accepts

  /** Lines behind a first one, each after a line break. */
  function Tail(lines: seq<string>): string {
    if lines == [] then "" else CRLF + (lines[0] + Tail(lines[1..]))
  }

  ghost predicate AllOneLine(lines: seq<string>) {
    forall i :: 0 <= i < |lines| ==> OneLine(lines[i])
  }

  /** A line that carries the content type, its name in whatever case. */
  ghost predicate IsTypeLine(line: string) {
    |line| >= 13 && SameButCase(line[..13], "content-type:")
  }

  /** The trimmed value of the first such line, empty when there is none. */
  ghost function TypeAmong(lines: seq<string>): string {
    if lines == [] then ""
    else if IsTypeLine(lines[0]) then Trim(lines[0][13..])
    else TypeAmong(lines[1..])
  }

  lemma TypeLineIff(line: string)
    ensures IsTypeLine(line) <==> MatchAt(Lower(CRLF + line), TYPE_KEY, 0)
  {
    hide SameButCase;
    LowerConcat(CRLF, line);
    LowerFixed(CRLF);
    LowerFixed("content-type:");
    if |line| >= 13 {
      LowerAlikeIff(line[..13], "content-type:");
      assert Lower(line)[..13] == Lower(line[..13]);
      assert Lower(CRLF + line)[0..15] == CRLF + Lower(line[..13]);
      assert TYPE_KEY == CRLF + "content-type:";
      assert TYPE_KEY[2..] == "content-type:" && (CRLF + Lower(line[..13]))[2..] == Lower(line[..13]);
    }
  }

  lemma NoKeyInLine(first: string, rest: string, k: nat)
    requires OneLine(first) && k < |first|
    ensures !MatchAt(Lower(first + CRLF + rest), TYPE_KEY, k)
    ensures !MatchAt(Lower(first), TYPE_KEY, k)
  {
    hide MatchAt, OneLine, Lower;
    FirstBreak(first, rest);
    LowerFind(first + CRLF + rest, 0);
    if MatchAt(Lower(first + CRLF + rest), TYPE_KEY, k) {
      KeyStartsWithBreak(Lower(first + CRLF + rest), k);
    }
    if MatchAt(Lower(first), TYPE_KEY, k) {
      KeyStartsWithBreak(Lower(first), k);
      LowerKeepsBreaks(first, k);
      OneLineAt(first, k);
    }
  }

  lemma OneLineAt(s: string, k: int)
    requires OneLine(s)
    ensures !MatchAt(s, CRLF, k)
  {
  }

  lemma FindSkip(s: string, p: string, n: nat)
    requires n <= |s| && forall k :: 0 <= k < n ==> !MatchAt(s, p, k)
    ensures Find(s, p, 0) == Find(s, p, n)
  {
    hide MatchAt;
    match Find(s, p, n) {
      case Some(i) => FindIs(s, p, 0, i);
      case None =>
    }
  }

  /** A first line and one that is not a type line can be dropped. */
  lemma TypeSkipsLine(first: string, line: string, more: string)
    requires OneLine(first) && !IsTypeLine(line) && (more == "" || CRLF <= more)
    ensures ContentTypeOf(first + CRLF + (line + more)) == ContentTypeOf(line + more)
  {
    hide Trim, MatchAt, Find, OneLine, Lower, IsTypeLine, TYPE_KEY;
    var n, rest := |first| + 2, line + more;
    var head := first + CRLF + rest;
    var lower := Lower(head);
    assert head[n..] == rest;
    LowerSlice(head, n);
    forall k | 0 <= k < n ensures !MatchAt(lower, TYPE_KEY, k) {
      if k < |first| {
        NoKeyInLine(first, rest, k);
      } else {
        NoKeyAtBreak(first, line, more, k);
      }
    }
    FindSkip(lower, TYPE_KEY, n);
    FindShift(lower, TYPE_KEY, n);
    match Find(lower[n..], TYPE_KEY, 0) {
      case None =>
      case Some(pos) =>
        MatchFits(lower[n..], TYPE_KEY, pos);
        var vs := pos + |TYPE_KEY|;
        FindShift(lower, CRLF, n + vs);
        FindShift(lower[n..], CRLF, vs);
        assert lower[n..][vs..] == lower[n + vs..];
        match Find(lower[n..][vs..], CRLF, 0) {
          case None => assert head[n + vs..] == rest[vs..];
          case Some(i) =>
            MatchFits(lower[n..][vs..], CRLF, i);
            assert head[n + vs..n + vs + i] == rest[vs..vs + i];
        }
    }
  }

  lemma LowerSlice(s: string, n: nat)
    requires n <= |s|
    ensures Lower(s)[n..] == Lower(s[n..])
  {
  }

  lemma NoKeyAtBreak(first: string, line: string, more: string, k: nat)
    requires !IsTypeLine(line) && |first| <= k < |first| + 2 && (more == "" || CRLF <= more)
    ensures !MatchAt(Lower(first + CRLF + (line + more)), TYPE_KEY, k)
  {
    hide IsTypeLine, Lower;
    var head := first + CRLF + (line + more);
    var lower := Lower(head);
    if MatchAt(lower, TYPE_KEY, k) {
      KeyStartsWithBreak(lower, k);
      LowerKeepsBreaks(head, k);
      CrlfAt(head, k);
      assert k == |first|;
      assert head[k..] == CRLF + (line + more);
      LowerSlice(head, k);
      assert lower[k..][0..15] == lower[k..k + 15];
      assert MatchAt(Lower(CRLF + (line + more)), TYPE_KEY, 0);
      KeyWithinLine(line, more);
      TypeLineIff(line);
    }
  }

  /** A key that starts a line does not reach into the next. */
  lemma KeyWithinLine(line: string, more: string)
    requires MatchAt(Lower(CRLF + (line + more)), TYPE_KEY, 0) && (more == "" || CRLF <= more)
    ensures MatchAt(Lower(CRLF + line), TYPE_KEY, 0)
  {
    hide Lower;
    var s, t := CRLF + (line + more), CRLF + line;
    var low := Lower(s);
    assert low[0..15] == TYPE_KEY;
    assert forall i :: 2 <= i < 15 ==> low[0..15][i] == low[i] && TYPE_KEY[i] != '\r';
    if more != "" {
      assert s[|t|] == '\r';
      LowerAt(s, |t|);
    }
    if |line| >= 13 {
      assert s == t + more;
      LowerConcat(t, more);
      assert Lower(t)[0..15] == low[0..15];
    }
  }

  lemma LowerAt(s: string, i: nat)
    requires i < |s|
    ensures Lower(s)[i] == LowerChar(s[i])
  {
  }

  /** A type line gives its trimmed value. */
  lemma TypeLineFound(first: string, line: string, more: string)
    requires OneLine(first) && OneLine(line) && IsTypeLine(line) && (more == "" || CRLF <= more)
    ensures ContentTypeOf(first + CRLF + (line + more)) == Trim(line[13..])
  {
    hide Trim, MatchAt, Find, OneLine, Lower, IsTypeLine;
    var n := |first|;
    var head := first + CRLF + (line + more);
    var lower := Lower(head);
    forall k | 0 <= k < n ensures !MatchAt(lower, TYPE_KEY, k) { NoKeyInLine(first, line + more, k); }
    KeyAtTypeLine(first, line, more);
    FindIs(lower, TYPE_KEY, 0, n);
    TypeLineLong(line);
    var vs := n + 15;
    var value := line[13..];
    assert head[vs..] == value + more;
    OneLinePart(line, 13, |line|);
    assert line[13..|line|] == value;
    FindShift(head, CRLF, vs);
    LowerFind(head, vs);
    if more == "" {
      assert value + more == value;
      OneLineIffNoFind(value);
    } else {
      assert value + more == value + CRLF + more[2..];
      FirstBreak(value, more[2..]);
      assert head[vs..vs + |value|] == value;
    }
  }

  lemma TypeLineLong(line: string)
    requires IsTypeLine(line)
    ensures |line| >= 13 && |TYPE_KEY| == 15
  {
  }

  lemma KeyAtTypeLine(first: string, line: string, more: string)
    requires IsTypeLine(line)
    ensures MatchAt(Lower(first + CRLF + (line + more)), TYPE_KEY, |first|)
  {
    hide IsTypeLine, Lower;
    var head, t := first + CRLF + (line + more), CRLF + line;
    TypeLineIff(line);
    LowerSlice(head, |first|);
    assert head[|first|..] == t + more;
    LowerConcat(t, more);
    assert Lower(t + more)[0..15] == Lower(t)[0..15];
    assert Lower(head)[|first|..][0..15] == Lower(head)[|first|..|first| + 15];
  }

  lemma TailStarts(lines: seq<string>)
    ensures Tail(lines) == "" || CRLF <= Tail(lines)
  {
  }

  /** The content type is the trimmed value of the first line behind the status line whose name is
      content-type in any case, on whichever line it stands. */
  lemma {:induction false} TypeOfLines(first: string, lines: seq<string>)
    requires OneLine(first) && AllOneLine(lines)
    ensures ContentTypeOf(first + Tail(lines)) == TypeAmong(lines)
    decreases |lines|
  {
    hide ContentTypeOf, OneLine, IsTypeLine, Trim;
    if lines == [] {
      assert first + Tail(lines) == first;
      NoTypeInLine(first);
    } else {
      var line, rest := lines[0], lines[1..];
      TailStarts(rest);
      assert first + Tail(lines) == first + CRLF + (line + Tail(rest));
      if IsTypeLine(line) {
        TypeLineFound(first, line, Tail(rest));
      } else {
        TypeSkipsLine(first, line, Tail(rest));
        TypeOfLines(line, rest);
      }
    }
  }

  lemma NoTypeInLine(first: string)
    requires OneLine(first)
    ensures ContentTypeOf(first) == ""
  {
    hide Find, MatchAt, OneLine, Lower;
    var lower := Lower(first);
    if Find(lower, TYPE_KEY, 0).Some? {
      var k := Find(lower, TYPE_KEY, 0).value;
      MatchFits(lower, TYPE_KEY, k);
      NoKeyInLine(first, "", k);
    }
  }

  /** `code` is the number between the first two spaces of the line, or behind the only one. */
  ghost predicate StatusIn(first: string, code: int) {
    exists a, num :: StatusBetween(first, a, num) && Stoi(num) == Some(code)
  }

  ghost predicate StatusBetween(first: string, a: string, num: string) {
    ' ' !in a && ' ' !in num && (first == a + " " + num || (a + " " + num + " ") <= first)
  }

  lemma StatusCodeBetween(first: string, a: string, num: string)
    requires StatusBetween(first, a, num)
    ensures StatusCode(first) == match Stoi(num) case None => 0 case Some(v) => v
  {
    hide Stoi, MatchAt;
    var more := first[|a| + 1 + |num|..];
    assert first == a + [' '] + (num + more);
    FindCharAfter(a, ' ', num + more);
    FindShift(first, " ", |a| + 1);
    assert first[|a| + 1..] == num + more;
    if more == "" {
      assert num + more == num;
      FindChar(num, ' ');
    } else {
      assert num + more == num + [' '] + more[1..];
      FindCharAfter(num, ' ', more[1..]);
      assert first[|a| + 1..|a| + 1 + |num|] == num;
    }
  }

  lemma StatusParts(first: string) returns (a: string, num: string)
    requires ' ' in first
    ensures StatusBetween(first, a, num)
  {
    hide MatchAt;
    FindChar(first, ' ');
    var sp := Find(first, " ", 0).value;
    a := first[..sp];
    var rest := first[sp + 1..];
    assert first == a + " " + rest;
    FindChar(rest, ' ');
    match Find(rest, " ", 0) {
      case None => num := rest;
      case Some(i) =>
        num := rest[..i];
        assert rest == num + " " + rest[i + 1..];
        assert first[..|a| + 1 + i + 1] == a + " " + num + " ";
    }
  }

  lemma StatusInIff(first: string, code: int)
    requires code != 0
    ensures StatusCode(first) == code <==> StatusIn(first, code)
  {
    hide StatusCode, Stoi, StatusBetween;
    if ' ' in first {
      var a, num := StatusParts(first);
      StatusCodeBetween(first, a, num);
    } else {
      NoSpaceNoStatus(first);
    }
    forall a, num | StatusBetween(first, a, num) && Stoi(num) == Some(code) ensures StatusCode(first) == code {
      StatusCodeBetween(first, a, num);
    }
  }

  lemma NoSpaceNoStatus(first: string)
    requires ' ' !in first
    ensures StatusCode(first) == 0
  {
    hide Stoi, MatchAt;
    FindChar(first, ' ');
  }

  /** A head, the text in front of the first blank line, as its lines. */
  ghost predicate HeadLines(raw: string, first: string, lines: seq<string>, body: string) {
    && OneLine(first) && AllOneLine(lines)
    && raw == first + Tail(lines) + BLANK_LINE + body
    && Find(raw, BLANK_LINE, 0) == Some(|first + Tail(lines)|)
  }

  /** What an upstream's bytes say: a status in 100..599, a content type or the default one, and as body
      everything behind the first blank line. */
  ghost predicate AnswerIs(raw: string, x: Relayed) {
    exists first, lines ::
      && HeadLines(raw, first, lines, x.body)
      && 100 <= x.status <= 599 && StatusIn(first, x.status)
      && x.contentType == (if TypeAmong(lines) == "" then "application/octet-stream" else TypeAmong(lines))
  }

  lemma {:induction false} SplitHead(head: string) returns (first: string, lines: seq<string>)
    ensures OneLine(first) && AllOneLine(lines) && head == first + Tail(lines)
    decreases |head|
  {
    hide MatchAt, OneLine;
    match Find(head, CRLF, 0) {
      case None =>
        OneLineIffNoFind(head);
        first, lines := head, [];
        assert head == head + "";
      case Some(e) =>
        MatchFits(head, CRLF, e);
        BeforeFirstBreak(head, e);
        var f, l := SplitHead(head[e + 2..]);
        first, lines := head[..e], [f] + l;
        assert lines[1..] == l;
    }
  }

  lemma FirstOfHead(first: string, lines: seq<string>)
    requires OneLine(first)
    ensures FirstLine(first + Tail(lines)) == first
  {
    hide MatchAt, OneLine, Find;
    if lines == [] {
      assert first + Tail(lines) == first;
      OneLineIffNoFind(first);
    } else {
      var more := lines[0] + Tail(lines[1..]);
      assert first + Tail(lines) == first + CRLF + more;
      FirstBreak(first, more);
      assert (first + Tail(lines))[..|first|] == first;
    }
  }

  /** What the reader makes of bytes whose head has these lines. */
  lemma ReadLines(raw: string, first: string, lines: seq<string>, body: string)
    requires HeadLines(raw, first, lines, body)
    ensures ReadResponse(raw) ==
            if 100 <= StatusCode(first) <= 599
            then Ok(Relayed(StatusCode(first), if TypeAmong(lines) == "" then DEFAULT_TYPE else TypeAmong(lines), body))
            else Err(BadStatus)
  {
    hide StatusCode, ContentTypeOf, FirstLine, Find, MatchAt, OneLine, TypeAmong, DEFAULT_TYPE;
    var head := first + Tail(lines);
    assert raw[..|head|] == head && raw[|head| + 4..] == body;
    FirstOfHead(first, lines);
    TypeOfLines(first, lines);
  }

  lemma LinesOfRaw(raw: string) returns (first: string, lines: seq<string>, body: string)
    requires Find(raw, BLANK_LINE, 0).Some?
    ensures HeadLines(raw, first, lines, body)
  {
    hide MatchAt, OneLine, Find;
    var eoh := Find(raw, BLANK_LINE, 0).value;
    BlankLineSplits(raw, eoh);
    first, lines := SplitHead(raw[..eoh]);
    body := raw[eoh + 4..];
  }

  lemma BlankLineSplits(raw: string, eoh: nat)
    requires Find(raw, BLANK_LINE, 0) == Some(eoh)
    ensures eoh + 4 <= |raw| && raw == raw[..eoh] + BLANK_LINE + raw[eoh + 4..]
  {
    hide MatchAt;
    MatchSplits(raw, BLANK_LINE, eoh);
  }

  /** The reader accepts exactly the bytes that say something, and takes them for that. */
  lemma ReadResponseIs(raw: string, x: Relayed)
    ensures ReadResponse(raw) == Ok(x) <==> AnswerIs(raw, x)
  {
    hide StatusCode, StatusIn, ReadResponse, HeadLines, TypeAmong;
    if ReadResponse(raw) == Ok(x) {
      AcceptedHasBlank(raw);
      var first, lines, body := LinesOfRaw(raw);
      ReadLines(raw, first, lines, body);
      StatusInIff(first, x.status);
    }
    forall first, lines | HeadLines(raw, first, lines, x.body) && 100 <= x.status <= 599 && StatusIn(first, x.status)
      ensures StatusCode(first) == x.status
      ensures var contentType := if TypeAmong(lines) == "" then DEFAULT_TYPE else TypeAmong(lines);
              ReadResponse(raw) == Ok(Relayed(x.status, contentType, x.body))
    {
      StatusInIff(first, x.status);
      ReadLines(raw, first, lines, x.body);
    }
  }

  lemma AcceptedHasBlank(raw: string)
    requires ReadResponse(raw).Ok?
    ensures Find(raw, BLANK_LINE, 0).Some?
  {
    hide StatusCode, ContentTypeOf, FirstLine;
  }

  /** The first line of a head has a status in range. */
  ghost predicate HasStatus(raw: string) {
    exists first, lines, body, code :: HeadLines(raw, first, lines, body) && 100 <= code <= 599 && StatusIn(first, code)
  }

  /** Everything else it refuses: nothing at all, no blank line, or no status in range. */
  lemma RefusedAnswerIs(raw: string)
    ensures ReadResponse(raw) == Err(IoFailed) <==> raw == ""
    ensures ReadResponse(raw) == Err(BadResponse) <==> raw != "" && Find(raw, BLANK_LINE, 0).None?
    ensures ReadResponse(raw) == Err(BadStatus) <==> Find(raw, BLANK_LINE, 0).Some? && !HasStatus(raw)
  {
    hide StatusCode, StatusIn, HeadLines, TypeAmong, ContentTypeOf, FirstLine;
    forall first, lines, body, code | HeadLines(raw, first, lines, body) && 100 <= code <= 599 && StatusIn(first, code)
      ensures ReadResponse(raw).Ok?
    {
      StatusInIff(first, code);
      ReadLines(raw, first, lines, body);
    }
    if Find(raw, BLANK_LINE, 0).Some? {
      var first, lines, body := LinesOfRaw(raw);
      ReadLines(raw, first, lines, body);
      if StatusCode(first) != 0 { StatusInIff(first, StatusCode(first)); }
    }
  }

  ghost predicate Relayable(x: Relayed) {
    100 <= x.status <= 599 && x.contentType != "" && Trimmed(x.contentType) && OneLine(x.contentType)
  }

  lemma AnswerFields(x: Relayed)
    ensures ResponseFields(Answer(x)) ==
            [Field("content-type", x.contentType),
             Field("content-length", Decimal(|x.body|)),
             Field("connection", "close")]
  {
    assert Answer(x).headers[0].name == "content-type";
  }

  lemma AnswerPrintable(x: Relayed)
    requires Relayable(x)
    ensures forall i :: 0 <= i < |ResponseFields(Answer(x))| ==> Printable(ResponseFields(Answer(x))[i])
  {
    hide OneLine, ResponseFields, Decimal, Printable;
    AnswerFields(x);
    OneLineWithout(Decimal(|x.body|));
    PrintableType(x.contentType);
    PrintableLength(Decimal(|x.body|));
    PrintableClose();
  }

  lemma PrintableType(value: string)
    requires OneLine(value)
    ensures Printable(Field("content-type", value))
  {
    hide OneLine;
    OneLineWithout("content-type");
  }

  lemma PrintableLength(value: string)
    requires OneLine(value)
    ensures Printable(Field("content-length", value))
  {
    hide OneLine;
    OneLineWithout("content-length");
  }

  lemma PrintableClose()
    ensures Printable(Field("connection", "close"))
  {
    hide OneLine;
    OneLineWithout("connection");
    OneLineWithout("close");
  }

  /** What follows the content type in an answer's head, without the last line break. */
  function AnswerTail(x: Relayed): string {
    "content-length: " + Decimal(|x.body|) + CRLF + "connection: close"
  }

  /** The head of a response with a content type as its one header. */
  lemma AnswerHead(x: Relayed)
    ensures ResponseHead(Answer(x)) ==
            StatusLine(x.status) + TYPE_KEY + (" " + x.contentType + CRLF + AnswerTail(x)) + CRLF
  {
    hide StatusLine, Decimal, ResponseFields, PrintLine, AnswerTail;
    AnswerFields(x);
    var l := PrintLines(ResponseFields(Answer(x)));
    ThreeLines(l);
    TypeLineText(x.contentType);
    TailText(x);
    Regroup(StatusLine(x.status), l[0], x.contentType, AnswerTail(x));
  }

  lemma TypeLineText(ct: string)
    ensures CRLF + PrintLine(Field("content-type", ct)) == TYPE_KEY + (" " + ct)
  {
  }

  lemma TailText(x: Relayed)
    ensures PrintLine(Field("content-length", Decimal(|x.body|))) + CRLF
            + (PrintLine(Field("connection", "close")) + CRLF)
            == AnswerTail(x) + CRLF
  {
    hide Decimal;
  }

  lemma ThreeLines(l: seq<string>)
    requires |l| == 3
    ensures Join(l) == l[0] + CRLF + (l[1] + CRLF + (l[2] + CRLF))
  {
    assert l[1..][1..] == [l[2]];
    assert Join([l[2]]) == l[2] + CRLF + Join([]);
    assert Join(l[1..]) == l[1] + CRLF + (l[2] + CRLF);
  }

  lemma Regroup(first: string, line: string, ct: string, tail: string)
    requires CRLF + line == TYPE_KEY + (" " + ct)
    ensures first + CRLF + (line + CRLF + (tail + CRLF)) == first + TYPE_KEY + (" " + ct + CRLF + tail) + CRLF
  {
    calc {
      first + CRLF + (line + CRLF + (tail + CRLF));
      first + (CRLF + line) + (CRLF + tail + CRLF);
      first + (TYPE_KEY + (" " + ct)) + (CRLF + tail + CRLF);
      first + TYPE_KEY + (" " + ct + CRLF + tail) + CRLF;
    }
  }

  /** The wire of an answer in front of its blank line, and behind it. */
  lemma AnswerParts(x: Relayed)
    ensures var wire, eoh := ResponseWire(Answer(x)), |ResponseHead(Answer(x))| - 2;
            var value := " " + x.contentType + CRLF + AnswerTail(x);
            && 0 <= eoh && eoh + 4 <= |wire|
            && wire[..eoh] == StatusLine(x.status) + TYPE_KEY + value
            && wire[..eoh] == StatusLine(x.status) + CRLF + ("content-type:" + value)
            && wire[eoh + 4..] == x.body
  {
    hide StatusLine, ResponseHead, AnswerTail;
    AnswerHead(x);
    var value := " " + x.contentType + CRLF + AnswerTail(x);
    assert TYPE_KEY == CRLF + "content-type:";
    Assoc(StatusLine(x.status) + CRLF, "content-type:", value);
  }

  /** Reading the answer gives back status, content type and body, for any body bytes. */
  lemma AnswerReadsBack(x: Relayed)
    requires Relayable(x)
    ensures ReadResponse(ResponseWire(Answer(x))) == Ok(x)
  {
    hide StatusLine, ResponseHead, ResponseWire, StatusCode, ContentTypeOf, AnswerTail, MatchAt, Find, OneLine, Trim;
    var first, wire := StatusLine(x.status), ResponseWire(Answer(x));
    var eoh := |ResponseHead(Answer(x))| - 2;
    var value := " " + x.contentType + CRLF + AnswerTail(x);
    StatusLineReads(x.status);
    AnswerParts(x);
    AnswerBlankLine(x);
    FirstBreak(first, "content-type:" + value);
    assert wire[..eoh][..|first|] == first;
    TypeLineReads(first, x.contentType, AnswerTail(x));
    TrimPadded(x.contentType);
  }

  lemma AnswerBlankLine(x: Relayed)
    requires Relayable(x)
    ensures |ResponseHead(Answer(x))| >= 2
    ensures Find(ResponseWire(Answer(x)), BLANK_LINE, 0) == Some(|ResponseHead(Answer(x))| - 2)
  {
    hide StatusLine, ResponseFields, Find, MatchAt, OneLine, Printable, ParseLine;
    var first, fields := StatusLine(x.status), ResponseFields(Answer(x));
    StatusLineReads(x.status);
    AnswerPrintable(x);
    forall i | 0 <= i < |fields| ensures FullLine(PrintLines(fields)[i]) {
      ParsePrintedLine(fields[i]);
    }
    var lines := [first] + PrintLines(fields);
    JoinCons(first, PrintLines(fields), "");
    assert Join(lines) + "" == Join(lines);
    assert Join(lines) == ResponseHead(Answer(x));
    FirstBlankLine(lines, x.body);
  }

  lemma ReadIsRelayable(raw: string)
    ensures ReadResponse(raw).Ok? ==> Relayable(ReadResponse(raw).value)
  {
    hide StatusCode, Trim, ContentTypeOf, FirstLine, OneLine, Find, MatchAt, Trimmed, DEFAULT_TYPE;
    if ReadResponse(raw).Ok? {
      var eoh := Find(raw, BLANK_LINE, 0).value;
      MatchFits(raw, BLANK_LINE, eoh);
      TypeIsOneLine(raw[..eoh]);
      DefaultTypeRelayable();
    }
  }

  lemma DefaultTypeRelayable()
    ensures DEFAULT_TYPE != "" && Trimmed(DEFAULT_TYPE) && OneLine(DEFAULT_TYPE)
  {
    OneLineWithout(DEFAULT_TYPE);
  }

  lemma TypeIsOneLine(head: string)
    ensures OneLine(ContentTypeOf(head)) && Trimmed(ContentTypeOf(head))
  {
    hide Trim, Find, MatchAt, OneLine;
    var lower := Lower(head);
    match Find(lower, TYPE_KEY, 0) {
      case None =>
        OneLineWithout("");
      case Some(pos) =>
        var vs := pos + |TYPE_KEY|;
        MatchFits(lower, TYPE_KEY, pos);
        LowerFind(head, vs);
        FindShift(head, CRLF, vs);
        match Find(lower, CRLF, vs) {
          case None =>
            OneLineIffNoFind(head[vs..]);
            TrimOneLine(head[vs..]);
          case Some(ve) =>
            MatchFits(lower, CRLF, ve);
            BeforeFirstBreak(head[vs..], ve - vs);
            assert head[vs..][..ve - vs] == head[vs..ve];
            TrimOneLine(head[vs..ve]);
        }
    }
  }

  /** For every upstream response the gateway accepts: reading it, answering with it and
      reading that answer gives the first reading again. */
  lemma RelayIsFaithful(raw: string)
    requires ReadResponse(raw).Ok?
    ensures ReadResponse(ResponseWire(Answer(ReadResponse(raw).value))) == ReadResponse(raw)
  {
    hide ReadResponse;
    ReadIsRelayable(raw);
    AnswerReadsBack(ReadResponse(raw).value);
  }

  /** As header fields, an answer announces its type, its exact length and that it closes; a reader with
      the gateway's own limit refuses it exactly when the type is over 8192 characters. */
  lemma AnswerAnnouncesLength(x: Relayed)
    requires Relayable(x) && |x.body| < SIZE_LIMIT
    ensures var wire := ResponseWire(Answer(x));
            && |StatusLine(x.status)| + 2 <= |wire|
            && ParseFields(wire[|StatusLine(x.status)| + 2..], map[]) ==
               if |x.contentType| > 8192 then None
               else Some(map["content-type" := x.contentType, "content-length" := Decimal(|x.body|),
                             "connection" := "close"])
  {
    hide StatusLine, ResponseFields, Decimal, Find, MatchAt, OneLine, ParseLine, ParseFields, StoreLines, FieldMap,
         Room, Printable, Normal, Storable;
    var fields := ResponseFields(Answer(x));
    var lines := PrintLines(fields);
    var wire := ResponseWire(Answer(x));
    assert wire[|StatusLine(x.status)| + 2..] == Join(lines) + (CRLF + x.body);
    AnswerFields(x);
    AnswerPrintable(x);
    AnswerNormal(x);
    forall i | 0 <= i < 3
      ensures FullLine(lines[i]) && ParseLine(lines[i]) == if Storable(fields[i]) then Some(fields[i]) else None
    {
      ParsePrintedLine(fields[i]);
    }
    FieldsOfLines(lines, CRLF + x.body, map[]);
    if |x.contentType| > MAX_VALUE {
      StoreStops(lines, map[], 0);
    } else {
      NoFieldsYet();
      StoreFrom([], lines, fields);
      assert [] + fields == fields;
      ThreeFields(fields[0], fields[1], fields[2]);
    }
  }

  lemma ThreeFields(a: Field, b: Field, c: Field)
    ensures Room([a, b, c])
    ensures FieldMap([a, b, c]) == map[a.name := a.value][b.name := b.value][c.name := c.value]
  {
    assert [a, b, c][..2] == [a, b];
    assert [a, b][..1] == [a];
    assert [a][..0] == [];
    assert FieldMap([a]) == map[a.name := a.value];
    FieldMapSize([a, b]);
  }

  lemma AnswerNormal(x: Relayed)
    requires Relayable(x) && |x.body| < SIZE_LIMIT
    ensures var fields := ResponseFields(Answer(x));
            && |fields| == 3 && (forall i :: 0 <= i < 3 ==> Normal(fields[i]) == fields[i])
            && (Storable(fields[0]) <==> |x.contentType| <= MAX_VALUE) && Storable(fields[1]) && Storable(fields[2])
  {
    hide Trim, ResponseFields, Decimal;
    AnswerFields(x);
    PlainName("content-type");
    PlainName("content-length");
    PlainName("connection");
    TrimPadded(x.contentType);
    TrimPadded(Decimal(|x.body|));
    TrimPadded("close");
    SizeDigits(|x.body|);
  }

  /** A lower-case name without blanks is stored as it is. */
  lemma PlainName(name: string)
    requires forall i :: 0 <= i < |name| ==> !('A' <= name[i] <= 'Z') && !IsBlank(name[i])
    ensures Lower(Trim(name)) == name
  {
    TrimPadded(name);
    LowerFixed(name);
  }
}
