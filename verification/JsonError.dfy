/** JSON error bodies (Http.cpp) and a reader for them after section 7 of RFC 8259. */
module JsonError {
  import opened Wrappers
  import opened Text
  import opened Http
  import opened Response
  import opened Relay

  // ---------------------------------------------------------------- escaping

  function HexDigit(d: int): (c: char)
    requires 0 <= d < 16
  {
    if d < 10 then (d + '0' as int) as char else (d - 10 + 'a' as int) as char
  }

  function EscapeChar(c: char): string {
    if c == '"' then "\\\""
    else if c == '\\' then "\\\\"
    else if c == '\n' then "\\n"
    else if c == '\r' then "\\r"
    else if c == '\t' then "\\t"
    else if c < ' ' then "\\u00" + [HexDigit(c as int / 16), HexDigit(c as int % 16)]
    else [c]
  }

  function Escape(s: string): string {
    if s == "" then "" else EscapeChar(s[0]) + Escape(s[1..])
  }

  lemma {:induction false} EscapeAppend(a: string, c: char)
    ensures Escape(a + [c]) == Escape(a) + EscapeChar(c)
  {
    if a == "" {
      assert (a + [c])[1..] == "";
    } else {
      assert (a + [c])[1..] == a[1..] + [c];
      EscapeAppend(a[1..], c);
    }
  }

  method JsonEscape(s: string) returns (o: string)
    ensures o == Escape(s)
  {
    hide Escape;
    o := "";
    NothingEscaped();
    for i := 0 to |s|
      invariant o == Escape(s[..i])
    {
      assert s[..i + 1] == s[..i] + [s[i]];
      EscapeAppend(s[..i], s[i]);
      match s[i] {
        case '"' => o := o + "\\\"";
        case '\\' => o := o + "\\\\";
        case '\n' => o := o + "\\n";
        case '\r' => o := o + "\\r";
        case '\t' => o := o + "\\t";
        case c =>
          if c < ' ' {
            // snprintf("\\u%04x"): the two high digits are always zero here
            o := o + ("\\u00" + [HexDigit(c as int / 16), HexDigit(c as int % 16)]);
          } else {
            o := o + [c];
          }
      }
    }
    assert s[..|s|] == s;
  }

  lemma NothingEscaped()
    ensures Escape("") == ""
  {
  }

  function ErrorBody(code: string, message: string): string {
    "{\"error\":\"" + Escape(code) + "\",\"message\":\"" + Escape(message) + "\"}"
  }

  function ErrorResponse(status: nat, code: string, message: string): HttpResponse {
    Answer(Relayed(status, "application/json", ErrorBody(code, message)))
  }

  /** `jsonError`. */
  method JsonErrorResponse(status: nat, code: string, message: string) returns (r: HttpResponse)
    ensures r == ErrorResponse(status, code, message)
  {
    var escapedCode := JsonEscape(code);
    var escapedMessage := JsonEscape(message);
    r := HttpResponse(status, [Field("content-type", "application/json")],
                      "{\"error\":\"" + escapedCode + "\",\"message\":\"" + escapedMessage + "\"}");
  }

  // ----------------------------------------------------------------- reading

  function HexValue(c: char): Option<int> {
    if '0' <= c <= '9' then Some(c as int - '0' as int)
    else if 'a' <= c <= 'f' then Some(c as int - 'a' as int + 10)
    else if 'A' <= c <= 'F' then Some(c as int - 'A' as int + 10)
    else None
  }

  /** The character of a four-digit escape; halves of surrogate pairs are not characters. */
  function FromHex(a: char, b: char, c: char, d: char): Option<char> {
    match (HexValue(a), HexValue(b), HexValue(c), HexValue(d))
    case (Some(x), Some(y), Some(z), Some(w)) =>
      var code := ((x * 16 + y) * 16 + z) * 16 + w;
      if 0 <= code < 0xD800 || 0xE000 <= code < 0x1_0000 then Some(code as char) else None
    case _ => None
  }

  /** One character or escape at the front of a JSON string, and how many characters it takes. */
  function ReadChar(s: string): (r: Option<(char, nat)>)
    ensures r.Some? ==> 1 <= r.value.1 <= |s|
  {
    if s == "" || s[0] < ' ' || s[0] == '"' then None
    else if s[0] != '\\' then Some((s[0], 1))
    else if |s| < 2 then None
    else match s[1]
         case '"' => Some(('"', 2))
         case '\\' => Some(('\\', 2))
         case '/' => Some(('/', 2))
         case 'b' => Some(('\U{08}', 2))
         case 'f' => Some(('\U{0c}', 2))
         case 'n' => Some(('\n', 2))
         case 'r' => Some(('\r', 2))
         case 't' => Some(('\t', 2))
         case 'u' =>
           if |s| < 6 then None
           else (match FromHex(s[2], s[3], s[4], s[5])
                 case None => None
                 case Some(c) => Some((c, 6)))
         case _ => None
  }

  /** A string up to its closing quote, and what follows the quote. */
  function ReadString(s: string): Option<(string, string)>
    decreases |s|
  {
    if s != "" && s[0] == '"' then Some(("", s[1..]))
    else match ReadChar(s)
         case None => None
         case Some((c, n)) =>
           match ReadString(s[n..])
           case None => None
           case Some((text, rest)) => Some(([c] + text, rest))
  }

  /** Code and message of an error body. */
  function ReadErrorBody(body: string): Option<(string, string)> {
    if !("{\"error\":\"" <= body) then None
    else match ReadString(body[10..])
         case None => None
         case Some((code, rest)) =>
           if !(",\"message\":\"" <= rest) then None
           else match ReadString(rest[12..])
                case None => None
                case Some((message, end)) => if end == "}" then Some((code, message)) else None
  }

  // -------------------------------------------------------------------- laws

  lemma ReadEscapedChar(c: char, rest: string)
    ensures ReadChar(EscapeChar(c) + rest) == Some((c, |EscapeChar(c)|))
    ensures EscapeChar(c)[0] != '"' && forall i :: 0 <= i < |EscapeChar(c)| ==> EscapeChar(c)[i] >= ' '
  {
    var e := EscapeChar(c);
    var s := e + rest;
    assert s[0] == e[0];
    assert |e| > 1 ==> s[1] == e[1];
    if |e| == 6 {
      assert s[2] == '0' && s[3] == '0' && s[4] == e[4] && s[5] == e[5];
      assert HexValue(e[4]) == Some(c as int / 16) && HexValue(e[5]) == Some(c as int % 16);
    }
  }

  /** The section 7 reader undoes the escaping, for every text and whatever follows it. */
  lemma {:induction false} ReadEscaped(text: string, rest: string)
    ensures ReadString(Escape(text) + ("\"" + rest)) == Some((text, rest))
  {
    hide ReadChar, EscapeChar;
    if text == "" {
      assert Escape(text) + ("\"" + rest) == "\"" + rest;
    } else {
      var c := text[0];
      var s' := Escape(text[1..]) + ("\"" + rest);
      ReadEscapedChar(c, s');
      var s := EscapeChar(c) + s';
      Assoc(EscapeChar(c), Escape(text[1..]), "\"" + rest);
      assert s[0] == EscapeChar(c)[0];
      assert s[|EscapeChar(c)|..] == s';
      ReadEscaped(text[1..], rest);
      assert text == [c] + text[1..];
    }
  }

  /** No byte below 0x20 is left after escaping. */
  lemma {:induction false} EscapedIsPrintable(text: string)
    ensures forall i :: 0 <= i < |Escape(text)| ==> Escape(text)[i] >= ' '
  {
    hide EscapeChar;
    if text == "" {
    } else {
      ReadEscapedChar(text[0], "");
      EscapedIsPrintable(text[1..]);
    }
  }

  /** Text without quotes, backslashes and control characters is left as it is. */
  lemma {:induction false} PlainTextKept(text: string)
    requires forall i :: 0 <= i < |text| ==> text[i] != '"' && text[i] != '\\' && text[i] >= ' '
    ensures Escape(text) == text
  {
    if text == "" {
    } else {
      PlainTextKept(text[1..]);
      assert text == [text[0]] + text[1..];
    }
  }

  /** The five short escapes, and two of the others. */
  lemma ShortEscapes()
    ensures Escape("\"") == "\\\"" && Escape("\\") == "\\\\"
    ensures Escape("\n") == "\\n" && Escape("\r") == "\\r" && Escape("\t") == "\\t"
    ensures Escape("\U{00}") == "\\u0000" && Escape("\U{1f}") == "\\u001f"
  {
    forall c: char ensures Escape([c]) == EscapeChar(c) {
      assert [c][1..] == "";
      assert EscapeChar(c) + "" == EscapeChar(c);
    }
  }

  /** Code and message are recovered from any error body, whatever characters they hold. */
  lemma ErrorBodyReads(code: string, message: string)
    ensures ReadErrorBody(ErrorBody(code, message)) == Some((code, message))
  {
    hide ReadString, Escape;
    var tail := ",\"message\":\"" + (Escape(message) + ("\"" + "}"));
    var body := ErrorBody(code, message);
    assert body[10..] == Escape(code) + ("\"" + tail);
    assert body[..10] == "{\"error\":\"";
    ReadEscaped(code, tail);
    assert tail[12..] == Escape(message) + ("\"" + "}");
    ReadEscaped(message, "}");
  }

  /** Hence two error bodies are equal only when they report the same thing. */
  lemma ErrorBodiesDistinct(code: string, message: string, code': string, message': string)
    requires ErrorBody(code, message) == ErrorBody(code', message')
    ensures code == code' && message == message'
  {
    ErrorBodyReads(code, message);
    ErrorBodyReads(code', message');
  }

  /** A client that reads the printed error response gets status, type, code and message. */
  lemma ErrorResponseReads(status: nat, code: string, message: string)
    requires 100 <= status <= 599
    ensures var r := ReadResponse(ResponseWire(ErrorResponse(status, code, message)));
            && r.Ok? && r.value.status == status && r.value.contentType == "application/json"
            && ReadErrorBody(r.value.body) == Some((code, message))
  {
    hide ReadResponse, ResponseWire, ErrorBody, ReadErrorBody;
    OneLineWithout("application/json");
    ErrorBodyReads(code, message);
    AnswerReadsBack(Relayed(status, "application/json", ErrorBody(code, message)));
  }
}
