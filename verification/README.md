# Verification of the API gateway

A Dafny model of the gateway's request path and of the parts of jwt-cpp it relies on, with proofs of
what the code promises: `dafny verify dfyconfig.toml` checks all of it.

The gateway accepts a connection, reads one HTTP request, asks a per-address rate limiter, routes
`/api/<area>/...`, verifies a bearer token, checks a scope, forwards the request to an upstream and
relays the answer. The model follows that path:

| file | models |
|---|---|
| `Text.dfy`, `Numbers.dfy`, `Wrappers.dfy` | `std::string::find`, trimming, case folding, stream words, `to_string`, `stoi`, the content-length reader |
| `Base64.dfy`, `Base64Laws.dfy` | `jwt::base`: encode, decode, pad, trim, both alphabets |
| `Jwt.dfy`, `CheckToken.dfy`, `TokenLaws.dfy`, `Auth.dfy` | compact tokens, HS256, the verifier, `verifyJwt` |
| `Http.dfy`, `HttpLaws.dfy` | the request parser and its grammar |
| `Response.dfy`, `Relay.dfy`, `JsonError.dfy` | the response printer, the upstream response reader, error bodies |
| `Proxy.dfy`, `ProxyLaws.dfy` | upstream addresses and the upstream request |
| `IdentityLaws.dfy` | the caller's identity as an upstream reads it |
| `Router.dfy` | routes and scopes |
| `RateLimiter.dfy` | the fixed-window limiter |
| `Reading.dfy` | the two recv loops |
| `HandleClient.dfy` | one connection, as the sequence of its effects |
| `IntakeLaws.dfy`, `ReplyLaws.dfy`, `HandleClientLaws.dfy` | what it takes in from the byte stream, what its replies read as, and all of it together |
| `ForwardLaws.dfy`, `Examples.dfy` | when a printed, signed request reaches its upstream, and one that does |
| `AcceptLoop.dfy` | the acceptor and its worker threads as a transition system |

Text is a sequence of characters and nothing depends on their being below 256, so every statement holds
for byte strings; binary data (decoded base64, MACs) is a sequence of bytes. Exceptions are values. What
the outside world decides is a parameter: how a client's bytes are cut into recv results, the clock
readings, JSON parsing and serialising, HMAC, the iteration order of the verifier's claim table, and what
the network answers. Statements quantify over all of them. JSON and HMAC are arbitrary functions; only
the signing theorems ask that the two claim sets signed read back from their own serialisation.

Methods carry the loops and updates of the source and are proved against specification functions; the
laws are about those functions.

## Where the code and its documentation differ

- `src/Http.h:36` says the parser gets everything before the empty line, so that the last header line
  keeps its line break, and the parser insists on that break. `src/HandleClient.cpp:93-98` cuts at the
  start of CR LF CR LF and drops it. `HttpLaws.CutBeforeBlankLineRejected` proves that every such head
  is rejected, `IntakeLaws.AsCodedNothingIsServed` that no connection gets past the parser. The
  amount kept of the blank line is a parameter of the pipeline: 0 is the code (`AS_CODED`), 2 the
  documented contract (`AS_DOCUMENTED`); the other pipeline laws hold for every amount up to 4 except
  `PrintedRequestIsTaken`, which is about the documented one.
- A token is still accepted when the clock equals "exp" (section 4.1.4 of RFC 7519 says it must not be):
  `TokenLaws.ExpiryIsInclusive`.
- `docs/API_CONTRACT.md` speaks of a number n of requests per minute and address. The window is fixed, not
  sliding: in 60 seconds up to 2n - 1 requests of one address pass (`RateLimiter.RunSpanBound`), every limit
  and address has a run that reaches that number (`RateLimiter.TwiceTheLimitIsReached`), and so the documented
  bound holds exactly for n = 1 (`RateLimiter.LimitIsBoundIff`).
- `docs/API_CONTRACT.md` and `docs/INTEGRATION.md` say that the upstream gets the roles and permissions
  with commas between them. `src/Proxy.cpp:23-30` escapes no comma that is inside one, and the header
  parser trims: `IdentityLaws.IdentitySurvivesIff` says exactly which identities arrive as they were checked.
  A token with the role "viewer,admin" that may read users is forwarded and arrives as one with the roles
  "viewer" and "admin": `IdentityLaws.CommaMakesTwoRoles`, and byte for byte in
  `Examples.CommaRoleReachesUpstream`.
- `docs/API_CONTRACT.md` promises 504 when an upstream times out. The code answers 504 only for a
  connection that times out; when recv times out on the answer it is 502
  (`HandleClientLaws.TimeoutSeenIff`, `Examples.TimeoutsRead`).
- `docs/API_CONTRACT.md` puts the path of a configured address in front of the forwarded one. An address
  whose path is nothing but slashes keeps one of them, so that "http://users:8081/" makes "//5" of "/5":
  `ProxyLaws.LoneSlashDoubles`.
- `docs/API_CONTRACT.md` lists GET for `/health`; the code answers it for every method
  (`Router.OtherRoutes`). `isReadMethod` knows HEAD, but no HEAD request gets past the method check.
- The limiter reads the clock before it takes its lock, so requests can take it out of clock order. A purge
  stays invisible unless a request reads a time inside a window that an earlier purge has erased
  (`RateLimiter.PurgeIsInvisible`); one second is enough to show it (`RateLimiter.LateReadingPasses`,
  `RateLimiter.LockOrderMattersIff`). Without such requests the bound of 2n - 1 holds as long as no request
  of the address reads a time more than one second before an earlier one, and no longer
  (`RateLimiter.LatenessBoundIff`).
- The head loop's cap is checked between reads, and so is the body's maximum, on everything read rather than
  on the declared length. Whether a head whose blank line ends after byte 16384 and not after byte 20479
  is accepted, and whether a body with more bytes behind it than the maximum allows is, depends on how the
  network cuts the stream. `IntakeLaws.ChunkingShowsIff` is the exact condition for whole runs,
  `Reading.HeadFateIndependentIff` and `Reading.BodyIndependentIff` for the two loops.
- Whether `verifyJwt` accepts, and whom, does not depend on the order of the claim table
  (`CheckToken.IdentityIgnoresOrder`), but the error it reports can: `CheckToken.ErrorOrderShowsIff` says
  exactly when, `TokenLaws.OrderShowsInReport` gives a token.

## Model

| member | source | states |
|---|---|---|
| Text.TrimStr | src/Http.cpp:14-20 | the two-index loop returns the one blank-free-ended middle of the text |
| Text.TrimIs | src/Http.cpp:14-20 | a trimmed text between any two runs of blanks is what trimming returns |
| Text.ToLower | src/Http.cpp:9-12 | every character folded, in place and in order |
| Text.LowerAlikeIff | src/Http.cpp:9-12 | two texts are folded to the same exactly when they differ in the case of letters only, letter by letter of the two 26-letter alphabets |
| Text.LowerFixedIff | src/Http.cpp:9-12 | text is left alone exactly when it has no capital letter, and folded text never has one |
| Text.ThreeWords | src/Http.cpp:76-79 | stream extraction returns exactly the three words written with single spaces |
| Text.WordsOfSpread | src/Http.cpp:76-79 | words with any white space of the C locale between and around them are extracted as those words |
| Base64.EncodeText | src/lib/include/jwt-cpp/base.h:82-129 | the loop with its one- and two-byte tails computes the regrouped sextets followed by the missing fills |
| Base64.ShiftsRegroup | src/lib/include/jwt-cpp/base.h:94-99 | the shifts and masks of the 24-bit triple cut three octets every six bits |
| Base64.GetSextet | src/lib/include/jwt-cpp/base.h:151-156 | the linear search returns a symbol's rank, or nothing for characters outside the alphabet |
| Base64.ShiftsUngroup | src/lib/include/jwt-cpp/base.h:165-169 | the shifts and masks of four sextets give their three octets |
| Base64.DecodeText | src/lib/include/jwt-cpp/base.h:131-187 | fill counting, the three errors in their order, whole quads and the tail |
| Base64.PadText | src/lib/include/jwt-cpp/base.h:189-199 | the falling-through switch appends exactly the fills missing to a multiple of four |
| Base64Laws.DecodeEncode | src/lib/include/jwt-cpp/base.h:82-187 | decoding undoes encoding for every byte string and both alphabets |
| Base64Laws.PadTrimEncode | src/lib/include/jwt-cpp/base.h:189-204 | pad undoes trim on every encoding, and the unpadded form decodes to the bytes |
| Base64Laws.TrimEncode | src/lib/include/jwt-cpp/base.h:201-204 | trimming an encoding leaves its symbols: no fill, of one or three characters, starts earlier |
| Base64Laws.DecodeAccepts | src/lib/include/jwt-cpp/base.h:131-156 | decode succeeds exactly on symbols over the alphabet followed by at most two fills, four to the quad |
| Base64Laws.DecodeReports | src/lib/include/jwt-cpp/base.h:131-156 | for any text in front of its fills: a third fill is reported first, then a size not divisible by four, then a character outside the alphabet |
| Base64Laws.TokenAlphabet | src/lib/include/jwt-cpp/base.h:43-56 | the alphabet and fill the tokens use, symbol by symbol |
| Base64Laws.PaddedDecodes | src/lib/include/jwt-cpp/base.h:131-199 | unpadded text over the alphabet decodes after pad unless its length is 1 modulo 4 |
| Base64Laws.LeftoverSymbol | src/lib/include/jwt-cpp/base.h:131-199 | a text with one symbol left over is padded by three fills and reported for too much of it |
| Base64Laws.EncodeDecode | src/lib/include/jwt-cpp/base.h:82-187 | re-encoding a decoded text gives it back with the 4 or 2 unused bits of its last sextet cleared |
| Base64Laws.DecodeAlike | src/lib/include/jwt-cpp/base.h:131-187 | two accepted texts decode alike exactly when they differ in those bits only |
| Base64Laws.SymbolsAreTheNumber | src/lib/include/jwt-cpp/base.h:86-126 | the symbols are the radix-64 digits of the input as one big-endian number, shifted by the bits the last sextet lacks (section 4 of RFC 4648) |
| Jwt.DecodeJwt | src/lib/include/jwt-cpp/jwt.h:2576-2591 | the constructor: split, three decodes, two parses, the first exception wins |
| Jwt.Builder.SetHeaderClaim | src/lib/include/jwt-cpp/jwt.h:2681-2684 | one header claim assigned, the others and the payload kept |
| Jwt.Builder.SetPayloadClaim | src/lib/include/jwt-cpp/jwt.h:2702-2705 | one payload claim assigned, the others and the header kept |
| Jwt.Builder.Sign | src/lib/include/jwt-cpp/jwt.h:2858-2872 | header with "alg" filled in, payload and MAC, each unpadded base64url, joined by dots; the builder is unchanged |
| Jwt.MacMatches | src/lib/include/jwt-cpp/jwt.h:865-869 | the byte-by-byte loop is equality of whole byte strings |
| Jwt.VerifyToken | src/lib/include/jwt-cpp/jwt.h:3286-3304 | algorithm, MAC, then the claim callbacks in table order, stopping at the first complaint |
| CheckToken.SplitTokenIs | src/lib/include/jwt-cpp/jwt.h:2577-2583 | a token splits into h, p, s exactly when it is h.p.s with no dot in h and p |
| CheckToken.ExtractStringList | src/CheckToken.cpp:12-33 | the strings of a list claim in order, a single string as a list, anything else as absent |
| CheckToken.VerifyJwt | src/CheckToken.cpp:36-90 | the step-by-step fill of the result, every exit with its error |
| CheckToken.AcceptedCarries | src/CheckToken.cpp:36-90 | verifyJwt accepts a token as an identity exactly when it is genuine, in time and from the required issuer and its payload carries that identity: its string sub, and for roles and permissions all strings of an array in order and nothing else of it, a string by itself, or nothing |
| CheckToken.AllStringsKept | src/CheckToken.cpp:17-24 | an array of strings is read as exactly these, in order |
| CheckToken.ClaimsPassIffInTime | src/lib/include/jwt-cpp/jwt.h:3112-3134 | in any table order the claims and the second look at exp pass exactly when all dates present are integers that bracket the clock readings |
| CheckToken.AcceptedIff | src/CheckToken.cpp:36-90 | accepted exactly when token and secret are not empty, the token is h.p.s with decodable parts, alg HS256 and the MAC of its own signing input, its dates bracket the clock readings and the required issuer matches; the identity is the payload's |
| CheckToken.TableOrderShowsIff | src/lib/include/jwt-cpp/jwt.h:3299-3303 | two table orders make the claims loop end in different complaints exactly when one date is out of time and another is not an integer |
| CheckToken.ErrorOrderShowsIff | src/CheckToken.cpp:47-89 | verifyJwt reports different errors under two table orders exactly when token and secret are not empty, the token is genuine (MAC and algorithm included), one of its dates is out of time and another is not an integer |
| CheckToken.IdentityIgnoresOrder | src/CheckToken.cpp:47-89 | under any two table orders verifyJwt accepts alike and fills the same identity |
| CheckToken.ReportOfGenuine | src/CheckToken.cpp:47-89 | on a genuine token: no error, issuer mismatch or token expired exactly for what is in time at both, or at the first only, of the two clock readings; otherwise the verification failure, or a decode error if some date is not an integer |
| CheckToken.ReportOfOthers | src/CheckToken.cpp:82-89 | a token without two dots, with no, another or no textual algorithm, or with another MAC, each with its report |
| CheckToken.ReportOfUnreadable | src/lib/include/jwt-cpp/jwt.h:2576-2591 | the first part that does not decode is reported, then the first of header and payload that is no JSON object |
| TokenLaws.SignedTokenDecodes | src/lib/include/jwt-cpp/jwt.h:2858-2891 | a signed token splits at its first two dots into its three parts, decodes to the original claims and MAC, and rebuilds the same signing input |
| TokenLaws.SignThenVerify | src/lib/include/jwt-cpp/jwt.h:2858-2891 | a freshly signed token is accepted exactly when its own dates and issuer allow it; an "alg" set by hand must be HS256 |
| TokenLaws.AcceptanceNeedsMac | src/lib/include/jwt-cpp/jwt.h:3288-3296 | nothing is accepted whose signature is not the MAC of its own first two parts |
| TokenLaws.WrongSecretRefused | src/lib/include/jwt-cpp/jwt.h:860-873 | where two secrets give different MACs, a token signed with one is refused under the other |
| TokenLaws.GenuineAcceptedIff | src/CheckToken.cpp:36-90 | a genuine token of the required issuer is accepted exactly when its dates bracket the clock readings |
| TokenLaws.ExpiryIsInclusive | src/lib/include/jwt-cpp/jwt.h:3116-3118 | on the reading that equals exp a genuine token is accepted exactly when iat and nbf, if present, are integers no later than it, and on every later reading it is refused |
| TokenLaws.AcceptanceIsInterval | src/CheckToken.cpp:48-60 | the clock readings that accept a token form an interval with one identity all over it, under any table orders |
| TokenLaws.OrderShowsInReport | src/CheckToken.cpp:82-89 | a signed token that has expired and whose iat is a string is reported as a failed verification under one table order and as a decode error under another |
| Http.RequestLine | src/Http.cpp:75-94 | three words, method letters, leading '/', version prefix, no ".." in the path |
| Http.HeaderLoop | src/Http.cpp:97-112 | the loop over positions stores line by line what the recursive reader of the remaining text stores |
| Http.ParseHttpRequest | src/Http.cpp:69-113 | true with the parsed request, or false |
| HttpLaws.RequestLineIs | src/Http.cpp:75-94 | a request line, whatever white space separates its words, is accepted exactly when it has three: a method of capital letters and hyphens, a target from "/" on without ".." in its path, a version from "HTTP/" on |
| HttpLaws.HeaderLineIs | src/Http.cpp:102-109 | a header line is its folded trimmed name and trimmed value around the first colon, and nothing without a colon, without a name or with a value over 8192 |
| HttpLaws.NameCaseIgnored | src/Http.cpp:105 | lines whose names differ only in the case of letters are the same field |
| HttpLaws.HeaderCaseIgnored | src/Http.cpp:69-113 | printed heads whose header names differ only in the case of letters parse to the same request |
| HttpLaws.AcceptedNamesAreSmall | src/Http.cpp:105 | no name in an accepted request has a capital letter |
| HttpLaws.ParserIsGrammar | src/Http.cpp:69-113 | a head is accepted, as a given request, exactly when it is a request line, full header lines and an end of head that the grammar reads as that request |
| HttpLaws.AcceptedRequest | src/Http.cpp:81-108 | no accepted request has more than 101 names, an empty name, a value over 8192, or ".." in its path |
| HttpLaws.LastFieldWins | src/Http.cpp:109 | a name has the value of the last line that carries it, and no other name has one |
| HttpLaws.StoreFrom | src/Http.cpp:98-111 | a sequence of good lines is accepted exactly when at most 100 different names precede its last line |
| HttpLaws.ParsePrinted | src/Http.cpp:69-113 | parsing printed fields, repeated or untrimmed as they may be: accepted exactly when line, fields and number of names allow, with trimmed values and lower-case names |
| HttpLaws.RequestRoundTrip | src/Http.cpp:69-113 | printing a request with its at most 101 headers in any order and parsing it gives the request back |
| HttpLaws.AcceptedReprints | src/Http.cpp:69-113 | printing any accepted request, its headers in any order, and parsing that gives it back |
| HttpLaws.FirstBlankLine | src/HandleClient.cpp:93-95 | after full lines, the first CR LF CR LF is the one that ends the last of them, whatever follows |
| HttpLaws.CutBeforeBlankLineRejected | src/HandleClient.cpp:93-98 | the slice the code cuts is rejected by the parser for every stream |
| HttpLaws.CutAfterLastBreak | src/Http.h:36 | cut with its last line break, a printed head is cut at its end and the body is what follows |
| Numbers.ParseContentLength | src/HandleClient.cpp:36-47 | accepts exactly 1 to 10 digits worth at most 64 MiB, returns their value, and no intermediate passes 10 times the limit plus 9 or overflows a long long |
| Numbers.ContentLengthOfDecimal | src/Proxy.cpp:211 | the reader inverts the printer of lengths up to 64 MiB and refuses larger ones |
| Numbers.ContentLengthIff | src/HandleClient.cpp:36-47 | exactly the decimal forms of numbers up to 67108864, with zeros in front as long as ten characters do, are read, and as those numbers |
| Numbers.StoiOfDecimal | src/Proxy.cpp:267 | stoi reads a printed number back, for all that fit an int |
| Numbers.StoiIs | src/Proxy.cpp:57-58 | white space, a sign or none and digits give the signed value whatever follows, nothing without a digit or beyond 32 bits |
| Response.BuildResponse | src/Http.cpp:115-132 | status line, the given headers in map order, the missing content-type and content-length, connection: close, blank line, body |
| Response.AddedFields | src/Http.cpp:118-128 | without a type and a length of its own a response is printed with JSON as type, its exact length and connection: close; with both, with the last only |
| Response.StatusLines | src/Http.cpp:22-36 | the status lines of the gateway's own answers, word for word |
| Relay.ReadUpstream | src/Proxy.cpp:245-297 | the reader's three errors and the status, content type and body it returns |
| Relay.ReadResponseIs | src/Proxy.cpp:245-297 | bytes are accepted as an answer exactly when the number between the first two spaces of their first line is in 100..599, with the trimmed value of the first content-type line in any case or else application/octet-stream, and with everything behind the first blank line as body |
| Relay.RefusedAnswerIs | src/Proxy.cpp:245-276 | the three errors, exactly for no bytes, no blank line, and no such number |
| Relay.TypeOfLines | src/Proxy.cpp:277-291 | the content type is found on whichever line it stands and however its name is capitalised |
| Relay.StatusLineReads | src/Proxy.cpp:257-272 | the number between the first two spaces of a printed status line is the status |
| Relay.TypeLineReads | src/Proxy.cpp:277-291 | the content type on the line after the first is found and trimmed, whatever follows |
| Relay.AnswerReadsBack | src/HandleClient.cpp:244-248 | reading a printed answer gives back status, content type and body, for any body bytes |
| Relay.RelayIsFaithful | src/Proxy.cpp:249-297 | read, print, read again equals the first read, for every raw response the reader accepts |
| Relay.AnswerAnnouncesLength | src/Http.cpp:118-128 | as header fields, an answer announces its type, its exact body length and that it closes; the gateway's own header parser refuses it exactly when the type is over 8192 |
| JsonError.JsonEscape | src/Http.cpp:38-59 | the loop escapes quote, backslash and every character below 0x20, and nothing else |
| JsonError.JsonErrorResponse | src/Http.cpp:61-67 | status, JSON content type and the two escaped members |
| JsonError.ReadEscaped | src/Http.cpp:38-59 | a string reader after section 7 of RFC 8259 undoes the escaping of every text, and stops at the closing quote |
| JsonError.EscapedIsPrintable | src/Http.cpp:48-55 | no character below 0x20 survives escaping |
| JsonError.PlainTextKept | src/Http.cpp:56-57 | text without quotes, backslashes and control characters is left as it is |
| JsonError.ShortEscapes | src/Http.cpp:41-55 | the five short escapes and the \u00 form of the others |
| JsonError.ErrorBodyReads | src/Http.cpp:61-67 | code and message are recovered from every error body |
| JsonError.ErrorBodiesDistinct | src/Http.cpp:61-67 | different reports have different bodies |
| JsonError.ErrorResponseReads | src/Http.cpp:61-67 | a client reading a printed error response gets its status, type, code and message |
| Proxy.ParseUpstreamText | src/Proxy.cpp:40-76 | scheme, host, port and trimmed prefix, or the first of the three errors |
| Proxy.SanitizeHeaderValue | src/Proxy.cpp:13-21 | every CR and LF becomes a space, nothing else changes |
| Proxy.JoinCsv | src/Proxy.cpp:23-30 | the sanitised items with commas between them; IdentityLaws.CsvReadsBackIff says when the list can be read back |
| Proxy.BuildUpstreamRequest | src/Proxy.cpp:202-218 | request line, the header lines with their conditions in order, blank line, body |
| Proxy.UpstreamNamesApart | src/Proxy.cpp:208-217 | no header name is written twice and none is authorization |
| ProxyLaws.AddressReads | src/Proxy.cpp:40-76 | a written host, port and path are read back, port 80 when none is written |
| ProxyLaws.PlainAddressIs | src/Proxy.cpp:40-76 | an authority without a colon is the host, with port 80, or the empty-host error |
| ProxyLaws.PortAddressIs | src/Proxy.cpp:53-70 | behind the last colon of an authority there must be a number in 1..65535, in front of it a host; the error is the port's before the host's |
| ProxyLaws.LoneSlashDoubles | src/Proxy.cpp:50-52 | a configured path keeps a slash at its end exactly when it is nothing but slashes, and then the target is the forwarded path behind a second slash |
| ProxyLaws.UpstreamPathSplits | src/Proxy.cpp:202-203 | prefix and forwarded path join to one word whose path, query and freedom from ".." are those of the parts |
| ProxyLaws.TableHolds | src/Proxy.cpp:208-217 | the upstream's header table has the written names and no others, each with its own trimmed value |
| ProxyLaws.AuthorizationStays | src/Proxy.cpp:206-217 | the client's credentials are not among the headers sent upstream |
| ProxyLaws.UpstreamRoundTrip | src/Proxy.cpp:202-218 | the first blank line of the wire is the printer's, the body follows it, and the head parses to the same method, path, query and header table, or to nothing exactly when a value is over 8192 |
| IdentityLaws.HeadersWritten | src/Proxy.cpp:208-217 | the upstream's header table, name by name: host, content-length as the decimal of the body's length, x-forwarded-for, connection: close, the client's content-type if it sent one, x-auth headers for what the identity has, and no other name |
| IdentityLaws.CsvReadsBackIff | src/Proxy.cpp:23-30 | splitting the joined list, as the header parser stores it, at its commas gives the list back exactly when it has an item, none holds a comma, CR or LF, the first does not start and the last does not end with a blank |
| IdentityLaws.SubjectReadsBackIff | src/Proxy.cpp:213 | the subject header is read as the subject exactly when it is trimmed and has no CR or LF |
| IdentityLaws.IdentitySurvivesIff | src/Proxy.cpp:213-216 | the identity an upstream reads from the header table is the one that was checked exactly when its subject and both lists, if not empty, meet those two conditions |
| IdentityLaws.CommaMakesTwoRoles | src/Proxy.cpp:213-216 | a token with the role "viewer,admin" and the permission "users:read" may read users and not write them, and the upstream reads from the headers an identity with the role "admin", which has every scope |
| Router.RouteOfArea | src/Router.cpp:11-52 | every target that names an area is routed to it with what follows the name, or refused for its method |
| Router.RoutedTargetNamesArea | src/Router.cpp:11-52 | nothing else is routed to an area |
| Router.OtherRoutes | src/Router.cpp:22-38 | exactly the two health paths are health, and not found is exactly everything else that names no area |
| Router.RouteAsksFor | src/Router.cpp:11-67 | for each of the six areas exactly five methods are routed, and the route's own scope check passes exactly for the admin role, the area's read scope on GET and its write scope on the others, or a permission in the area's older vocabulary |
| Router.OneScopeGrants | src/Router.cpp:44-67 | with nothing but the read scope one may GET and nothing else, with nothing but the write scope everything but GET |
| Router.RouteGoesTo | src/Router.cpp:44-49 | requests go to the area's own address, and for quests, attempts and answers without one to that of tests |
| Router.HasScopeIff | src/Router.cpp:54-67 | a scope is had exactly by the admin role, the scope itself or any permission that starts with the area's singular and a colon |
| Router.ForwardedPathRecoversTarget | src/Router.cpp:44-49 | the target is "/api/", area and forwarded path, up to the one '/' inserted when nothing or '?' follows the area |
| Router.EqualForwardsEqualTargets | src/Router.cpp:44-49 | equal routes come from targets that differ by that '/' at most |
| Router.RoutedPathForwardable | src/Router.cpp:44-49 | a routed path starts with '/', has no white space and no ".." before its query |
| Router.VocabulariesApart | src/Router.h:27-34 | no permission string speaks about two areas |
| Router.ScopeFromOwnVocabulary | src/Router.cpp:54-67 | without the admin role, deleting permissions outside an area's vocabulary changes nothing for it |
| Router.GrantsOneArea | src/Router.cpp:54-67 | one permission grants scopes of one area only |
| Router.ReadDoesNotGrantWrite | src/Router.cpp:58-65 | the read scope alone grants reading and not writing |
| Router.ScopesGrow | src/Router.cpp:54-67 | more roles and permissions never revoke access |
| RateLimiter.RateLimiter.SetLimit | src/RateLimiter.h:15 | the limit changes, the buckets stay |
| RateLimiter.RateLimiter.Purge | src/RateLimiter.h:42-49 | erasing one by one in any order leaves exactly the buckets younger than 60 seconds, unchanged |
| RateLimiter.RateLimiter.Allow | src/RateLimiter.h:18-35 | answer and new state are one step of the limiter, purge and default bucket included |
| RateLimiter.NoLimitAllowsAll | src/RateLimiter.h:19 | under a limit of zero or less every request of every run is allowed and nothing is remembered |
| RateLimiter.RememberedAfter | src/RateLimiter.h:25 | which addresses are remembered after a request: all, or from 20001 on only those of the last 60 seconds and the asker |
| RateLimiter.PurgeIsInvisible | src/RateLimiter.h:18-49 | on every step of every run, limit changes included, in which no request reads a time inside a window that an earlier purge erased, the answer is that of a limiter that never purges; clock order is not needed |
| RateLimiter.ClockedHasNoLateReading | src/RateLimiter.h:20-25 | a run in clock order has no such reading |
| RateLimiter.PurgeShowsIff | src/RateLimiter.h:25-33 | a purge at p changes the answer to a request at t exactly when it erases a bucket that is full and whose window is open at t |
| RateLimiter.LateReadingShowsIff | src/RateLimiter.h:18-49 | after a run without late readings the next answer differs exactly when the bucket has been erased and the limiter that never purges holds it full in a window open at the time read |
| RateLimiter.LateReadingPasses | src/RateLimiter.h:20-25 | 20001 addresses asking at p - 60, a purge at p, and then any earlier reading t, be it p - 1: the request is let through although its limit is used up |
| RateLimiter.LockOrderMattersIff | src/RateLimiter.h:20-25 | after a run in clock order up to reading p, a request that read t can be answered differently because of a purge exactly when t < p and p is at least 61 |
| RateLimiter.AnswerFromOwnTimes | src/RateLimiter.h:26-34 | under a fixed limit, without late readings, an answer depends on the asking address's own times alone |
| RateLimiter.BucketIsWindow | src/RateLimiter.h:26-34 | a bucket holds the opening time of the current window and the smaller of the limit and the requests since, so its count never exceeds the limit |
| RateLimiter.AnswerIffRoom | src/RateLimiter.h:18-35 | in every run without late readings, in clock order or not, a request is allowed exactly when fewer than n requests of its address precede it in its window |
| RateLimiter.OpeningsFarApart | src/RateLimiter.h:27-31 | windows of one address open at least 60 seconds apart, whatever the order of its readings |
| RateLimiter.RefusedIffWindowFull | src/RateLimiter.h:27-34 | whatever the order of the readings, refused exactly when n requests were allowed since a window that opened less than 60 seconds ago |
| RateLimiter.RunSpanBound | src/RateLimiter.h:18-35 | in a run without late readings, in clock order or not, at most 2n - 1 requests of one address are allowed in any 60 seconds if none of its own readings is more than a second before an earlier one, or if n is 1 |
| RateLimiter.ClockedIsPunctual | src/RateLimiter.h:20-25 | every run in clock order meets those conditions |
| RateLimiter.TwoSecondsLate | src/RateLimiter.h:18-35 | for every n a run whose readings are at most two seconds late lets 3n - 2 through in 60 seconds |
| RateLimiter.LatenessBoundIff | src/RateLimiter.h:18-35 | the bound 2n - 1 holds of all runs without late readings in which an address's own readings are at most d seconds late exactly when d is at most 1 or n is 1 |
| RateLimiter.TwiceTheLimitIsReached | src/RateLimiter.h:18-35 | for every limit and address a run in clock order reaches that number |
| RateLimiter.LimitIsBoundIff | src/RateLimiter.h:2 | at most n requests in any 60 seconds of any run without late readings, and likewise of any run in clock order, exactly when n is 1 |
| Reading.SameHeadForAllChunkings | src/HandleClient.cpp:67-95 | with the blank line inside the first 16384 bytes, every cut finds the same head, loses no byte and buffers at most 20479 |
| Reading.HeadRefused | src/HandleClient.cpp:72-91 | without a blank line in 20479 bytes the head is too large or the client gone, by the length of the stream alone |
| Reading.HeadFateIndependentIff | src/HandleClient.cpp:72-84 | the fate of a head is independent of the cuts unless its blank line ends after byte 16384 and not after 20479 |
| Reading.BodyIndependentIff | src/HandleClient.cpp:130-147 | every cut yields the same body exactly when the leftover holds it, or all of it arrives and no read can overshoot the maximum |
| Reading.RequestIndependentOfChunking | src/HandleClient.cpp:67-147 | head and body are functions of the byte stream: the bytes before the blank line and the declared number after it |
| HandleClient.SendAll | src/HandleClient.cpp:18-27 | what is delivered is a prefix of the data, all of it exactly when true is returned, and true is returned exactly when sends in a row, none of them failing and each counted for at most 65536 bytes, take it all |
| HandleClient.Connection.ReceiveHead | src/HandleClient.cpp:68-84 | the head loop on successive recv results |
| HandleClient.Connection.ReceiveBody | src/HandleClient.cpp:130-147 | the body loop, the overshoot check and the cut to the declared length |
| HandleClient.Connection.HandleClient | src/HandleClient.cpp:61-250 | the effects of a connection and the limiter afterwards are those of the specified run |
| HandleClientLaws.RunShapes | src/HandleClient.cpp:61-250 | every run closes its socket exactly once, at its end, replies at most once, asks the limiter at most once, and calls the upstream at most once and only after the limiter allowed it |
| IntakeLaws.AsCodedNothingIsServed | src/HandleClient.cpp:93-104 | as coded, every connection is dropped, refused for its size or refused as malformed, and the limiter is never asked |
| IntakeLaws.IntakeFromStream | src/HandleClient.cpp:67-149 | the request taken in, the refusal or the drop is a function of the byte stream, whenever the blank line does not end between bytes 16385 and 20479 and a body that is let through and complete cannot overshoot the maximum |
| IntakeLaws.ChunkingShowsIff | src/HandleClient.cpp:67-250 | the same bytes make the same run, effect by effect, under all cuts exactly when that condition holds |
| IntakeLaws.TakenIsInStream | src/HandleClient.cpp:93-149 | whatever is taken in, under any cut, is a complete request of the byte stream: the head in front of the first blank line, parsed, and the declared number of bytes after it |
| IntakeLaws.LimiterAskedIff | src/HandleClient.cpp:67-158 | the limiter is asked only when the byte stream holds a complete request (it parses, has no transfer encoding, an absent or valid length within the maximum, and that many bytes), and, for a stream that meets the condition, whenever it does; otherwise it is unchanged |
| IntakeLaws.PrintedRequestIsTaken | src/HandleClient.cpp:67-149 | with the documented cut, a request printed by a client, with its length or without a body, is taken in whole however it is cut, or refused exactly for a transfer encoding or a length over a limit |
| HandleClientLaws.UpstreamCalledIff | src/HandleClient.cpp:151-230 | an upstream is sent a wire exactly when limiter, route, token, scope and address have all passed and it has accepted the connection, and the wire is that request's |
| HandleClientLaws.UpstreamSeesAuthorizedRequest | src/HandleClient.cpp:151-230 | whatever reaches an upstream has a genuine token in its time window whose identity has the scope, is a complete request of the client's byte stream for the client's target; and when the configured prefix has no white space, "?" or "..", the upstream finds the client's body behind its first blank line and reads in front of it, unless a value over 8192 makes it refuse the head, the client's method, path and query, the exact number of the body's bytes as content-length, the other header values name by name without credentials, and that identity exactly when the headers can carry it |
| HandleClientLaws.UpstreamIsSeen | src/HandleClient.cpp:228-249 | for a request that passes every gate the client reads, from the network results and the upstream's bytes alone: the gateway's 504 for a connection that times out; its 502 with the reason when the name or the connection fails, the send or recv fails, there are no bytes or 4 MiB of them, no blank line or no status in range; and otherwise the status, type and body those bytes say |
| HandleClientLaws.AnswerIsRelayed | src/HandleClient.cpp:228-249 | for a request that passes every gate and an upstream that answers in under 4 MiB with a readable response, the run is the limiter's yes, the one call, the one reply and the close, and the reply reads as the status, content type and body of the upstream's answer |
| HandleClientLaws.TimeoutSeenIff | src/HandleClient.cpp:228-242 | for a request that passes every gate the client reads 504 exactly when the connection times out or the upstream itself answers 504; a recv timeout on the answer reads 502 |
| ForwardLaws.SignedRequestPassesIff | src/HandleClient.cpp:151-226 | a printed request for an area with a freshly signed token passes every gate exactly when lengths, limiter, method and address let it and its token's dates, issuer and scopes entitle it, and then as that request with that identity |
| ForwardLaws.SignedRequestForwardedIff | src/HandleClient.cpp:61-230 | from the client's bytes to the upstream's: such a request puts a wire to an upstream exactly under those conditions and an accepted connection, and the wire is that request with its token's identity |
| ForwardLaws.RefusedTokenReads | src/HandleClient.cpp:194-209 | the client of a printed request with any refused bearer token reads 401 with the reason in words |
| ForwardLaws.MissingScopeReads | src/HandleClient.cpp:211-218 | the client whose token proves an identity without the scope reads 403 naming the scope its method needs |
| ForwardLaws.SignedRequestRefused | src/CheckToken.cpp:47-89 | a signed token out of time, expired between the two looks at the clock, from another issuer or without the scope is told so |
| ForwardLaws.WrongScopeForbidden | src/Router.cpp:44-67 | with nothing but the read scope a POST, PUT, PATCH or DELETE, and with nothing but the write scope a GET, reads 403 and calls no upstream |
| Examples.ExamplePasses | src/HandleClient.cpp:151-226 | a concrete printed GET with a signed token passes every gate |
| Examples.TimeoutsRead | src/HandleClient.cpp:228-242 | for that request a connection that times out is read as 504, a recv that times out as 502 |
| Examples.CommaRoleReachesUpstream | src/Proxy.cpp:202-218 | that request is sent upstream, and the head of the wire parses to headers in which the caller has the role "admin" its token does not carry |
| HandleClientLaws.BearerIs | src/HandleClient.cpp:49-58 | the token is what stands between blanks after "Bearer " |
| HandleClientLaws.ClientSeesReply | src/HandleClient.cpp:151-250 | status, code and message of the reply the client reads: 429 exactly when refused by the limiter, else by route; for an area 401 with the reason when no identity is proved, 403 naming the scope when it lacks it, and then what became of the upstream |
| ReplyLaws.EveryReplyReads | src/HandleClient.cpp:29-34 | every reply of every run reads back as status, content type and exact body |
| ReplyLaws.HealthReads | src/HandleClient.cpp:162-176 | the health reply reads as 200 and the six areas, each with the address its requests go to |
| ReplyLaws.ReadAllIgnoresChunking | src/Proxy.cpp:222-242 | an upstream's bytes are taken whole below 4 MiB and refused from there on, however they arrive |
| AcceptLoop.InvAlways | src/main.cpp:125-157 | over every interleaving the counter is the workers not yet counted out plus the one counted and not started, ids run 1, 2, 3 and so on, and every accepted socket is in exactly one place |
| AcceptLoop.NeverTooManyClients | src/main.cpp:140-156 | neither the counter nor the number of workers ever exceeds the maximum |
| AcceptLoop.IdsInOrder | src/main.cpp:151 | connection ids are distinct, increasing and without gaps |
| AcceptLoop.NothingLeaks | src/main.cpp:133-156 | when the workers are gone the counter is zero and every accepted socket has been closed exactly once |
| AcceptLoop.TurnedAwayIffFull | src/main.cpp:140-144 | a client is turned away exactly when that many workers are there |
| AcceptLoop.NobodyAfterSignal | src/main.cpp:129-133 | once the flag is down nobody is accepted but the one client already waited for |
| AcceptLoop.StopsOnlyOnSignal | src/main.cpp:129-133 | the loop is left only after a signal |

## Left out

- Sockets, DNS, connect and its timeouts, signals and platform shims: foreign calls; recv, send, connecting and the network's answer are arbitrary sequences and functions.
- HMAC-SHA256, EVP and the JSON library: arbitrary functions; RSA, ECDSA, EdDSA, PSS, jwk and jwks are not used by the gateway.
- CheckToken.AcceptedIff: dates in claims are unbounded integers; a tick is a nanosecond, and seconds beyond the range of the clock's tick type (about 9.2e9), where the C++ conversion overflows, are not modelled.
- What `parseHttpRequest` leaves in its out parameter when it returns false: callers discard it.
- The content of exception messages, beyond which of them is reported; they are an arbitrary function of the exception.
- HandleClient.Connection.Reply: records the wire it hands to sendAll and not how much of it arrives; `SendAll` is proved on its own.
- The map order of response headers is the order of the given list; every response the gateway builds has one header.
- The upstream address list of getaddrinfo and the retry over it: one result of connecting stands for all of it.
- The health body is printed as the code prints it; upstream URLs are not escaped in it and nothing is proved about reading it as JSON.
- Environment loading, logging, the start-up banner, the local address lookup, the bounded shutdown wait and the legacy `CheckToken`, `findToken` and `maskToken`.
- std::thread failing to start a worker: main.cpp does not handle it.
