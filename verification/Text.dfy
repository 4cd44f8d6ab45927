/**
 The std::string vocabulary the gateway is written in: find, the blank
 trimming and case folding of Http.cpp, and the whitespace-separated words an
 istringstream extracts. Text is a sequence of characters; nothing here
 depends on a character being below 256, so every statement covers byte strings.
 */
module Text {
  import opened Wrappers

  const CRLF := "\r\n"
  const BLANK_LINE := "\r\n\r\n"

  // ------------------------------------------------------------------- find

  /** `p` occurs in `s` at index `i`. */
  predicate MatchAt(s: string, p: string, i: int) {
    0 <= i && i + |p| <= |s| && s[i..i + |p|] == p
  }

  /** `s.find(p, from)`: the first occurrence at or after `from`, None for npos. */
  function Find(s: string, p: string, from: nat): (r: Option<nat>)
    ensures r.Some? ==> from <= r.value && MatchAt(s, p, r.value)
    ensures r.Some? ==> forall k :: from <= k < r.value ==> !MatchAt(s, p, k)
    ensures r.None? ==> forall k :: from <= k ==> !MatchAt(s, p, k)
    decreases |s| - from
  {
    if from + |p| > |s| then None
    else if MatchAt(s, p, from) then Some(from)
    else Find(s, p, from + 1)
  }

  /** Nothing but "first occurrence" characterises Find. */
  lemma FindIs(s: string, p: string, from: nat, i: nat)
    requires from <= i && MatchAt(s, p, i)
    requires forall k :: from <= k < i ==> !MatchAt(s, p, k)
    ensures Find(s, p, from) == Some(i)
  {
  }

  lemma MatchSuffix(s: string, p: string, from: nat, i: int)
    requires from <= |s| && from <= i
    ensures MatchAt(s, p, i) <==> MatchAt(s[from..], p, i - from)
  {
    if i + |p| <= |s| {
      assert s[from..][i - from..i - from + |p|] == s[i..i + |p|];
    }
  }

  /** Searching from a position is searching the rest of the text. */
  lemma FindShift(s: string, p: string, from: nat)
    requires from <= |s|
    ensures Find(s, p, from) ==
            match Find(s[from..], p, 0)
            case None => None
            case Some(i) => Some(from + i)
  {
    forall i: int | from <= i
      ensures MatchAt(s, p, i) <==> MatchAt(s[from..], p, i - from)
    {
      MatchSuffix(s, p, from, i);
    }
    match Find(s[from..], p, 0) {
      case Some(i) =>
        assert MatchAt(s, p, from + i);
        forall k | from <= k < from + i
          ensures !MatchAt(s, p, k)
        {
          assert !MatchAt(s[from..], p, k - from);
        }
        FindIs(s, p, from, from + i);
      case None =>
        forall k | from <= k
          ensures !MatchAt(s, p, k)
        {
          assert !MatchAt(s[from..], p, k - from);
        }
    }
  }

  lemma MatchPrefix(s: string, p: string, n: nat, i: int)
    requires n <= |s| && i + |p| <= n
    ensures MatchAt(s, p, i) <==> MatchAt(s[..n], p, i)
  {
    if 0 <= i {
      assert s[..n][i..i + |p|] == s[i..i + |p|];
    }
  }

  /** A longer text keeps the first occurrence that a prefix of it shows. */
  lemma FindPrefix(s: string, p: string, n: nat)
    requires n <= |s|
    ensures Find(s[..n], p, 0).Some? ==> Find(s, p, 0) == Find(s[..n], p, 0)
    ensures Find(s, p, 0).Some? && Find(s, p, 0).value + |p| <= n
            ==> Find(s[..n], p, 0) == Find(s, p, 0)
    ensures (Find(s, p, 0).None? || Find(s, p, 0).value + |p| > n)
            ==> Find(s[..n], p, 0).None?
  {
    forall i: int
      ensures MatchAt(s[..n], p, i) <==> MatchAt(s, p, i) && i + |p| <= n
    {
      if i + |p| <= n {
        MatchPrefix(s, p, n, i);
      }
    }
    match Find(s[..n], p, 0) {
      case Some(i) => FindIs(s, p, 0, i);
      case None =>
    }
    match Find(s, p, 0) {
      case Some(i) => if i + |p| <= n { FindIs(s[..n], p, 0, i); }
      case None =>
    }
  }

  lemma MatchMiddle(a: string, p: string, b: string)
    ensures MatchAt(a + p + b, p, |a|)
  {
  }

  lemma MatchSplits(s: string, p: string, i: int)
    requires MatchAt(s, p, i)
    ensures 0 <= i && i + |p| <= |s| && s == s[..i] + p + s[i + |p|..]
  {
    assert s == s[..i] + s[i..i + |p|] + s[i + |p|..];
  }

  lemma CharAt(s: string, c: char, i: int)
    ensures MatchAt(s, [c], i) <==> 0 <= i < |s| && s[i] == c
  {
    if 0 <= i < |s| {
      assert s[i..i + 1] == [s[i]];
    }
  }

  /** Finding one character: where it is, or that it is absent. */
  lemma FindChar(s: string, c: char)
    ensures match Find(s, [c], 0)
            case None => c !in s
            case Some(i) => i < |s| && s[i] == c && c !in s[..i]
  {
    forall i: int ensures MatchAt(s, [c], i) <==> 0 <= i < |s| && s[i] == c {
      CharAt(s, c, i);
    }
    match Find(s, [c], 0) {
      case None => forall i | 0 <= i < |s| ensures s[i] != c { assert !MatchAt(s, [c], i); }
      case Some(n) => forall i | 0 <= i < n ensures s[i] != c { assert !MatchAt(s, [c], i); }
    }
  }

  /** A prefix without the character, then the character: that is the first one. */
  lemma FindCharAfter(a: string, c: char, b: string)
    requires c !in a
    ensures Find(a + [c] + b, [c], 0) == Some(|a|)
  {
    var s := a + [c] + b;
    forall k | 0 <= k < |a| ensures !MatchAt(s, [c], k) {
      CharAt(s, c, k);
      assert s[k] == a[k];
    }
    CharAt(s, c, |a|);
    FindIs(s, [c], 0, |a|);
  }

  lemma Assoc(a: string, b: string, c: string)
    ensures a + b + c == a + (b + c)
  {
  }

  // ------------------------------------------------------------------- CRLF

  lemma CrlfAt(s: string, i: int)
    ensures MatchAt(s, CRLF, i) <==> 0 <= i && i + 1 < |s| && s[i] == '\r' && s[i + 1] == '\n'
  {
    if 0 <= i && i + 1 < |s| {
      assert s[i..i + 2] == [s[i], s[i + 1]];
    }
  }

  lemma BlankLineAt(s: string, i: int)
    ensures MatchAt(s, BLANK_LINE, i) <==> MatchAt(s, CRLF, i) && MatchAt(s, CRLF, i + 2)
  {
    CrlfAt(s, i);
    CrlfAt(s, i + 2);
    if 0 <= i && i + 3 < |s| {
      assert s[i..i + 4] == [s[i], s[i + 1], s[i + 2], s[i + 3]];
    }
  }

  /** No line break inside. */
  ghost predicate OneLine(s: string) {
    forall i :: !MatchAt(s, CRLF, i)
  }

  lemma OneLineIffNoFind(s: string)
    ensures OneLine(s) <==> Find(s, CRLF, 0).None?
  {
  }

  lemma OneLinePart(s: string, i: nat, j: nat)
    requires OneLine(s) && i <= j <= |s|
    ensures OneLine(s[i..j])
  {
    forall k ensures !MatchAt(s[i..j], CRLF, k) {
      CrlfAt(s[i..j], k);
      CrlfAt(s, i + k);
    }
  }

  /** Up to its first line break, a text is one line. */
  lemma BeforeFirstBreak(s: string, i: nat)
    requires Find(s, CRLF, 0) == Some(i)
    ensures OneLine(s[..i])
    ensures s == s[..i] + CRLF + s[i + 2..]
  {
    forall k ensures !MatchAt(s[..i], CRLF, k) {
      CrlfAt(s[..i], k);
      CrlfAt(s, k);
    }
    assert s[i..i + 2] == CRLF;
  }

  /** A line followed by a line break: the break is the first one. */
  lemma FirstBreak(line: string, rest: string)
    requires OneLine(line)
    ensures Find(line + CRLF + rest, CRLF, 0) == Some(|line|)
  {
    var s := line + CRLF + rest;
    CrlfAt(s, |line|);
    forall k | 0 <= k < |line| ensures !MatchAt(s, CRLF, k) {
      CrlfAt(s, k);
      CrlfAt(line, k);
    }
    FindIs(s, CRLF, 0, |line|);
  }

  /** Gluing two lines at a place that is not CR|LF gives one line. */
  lemma OneLineConcat(a: string, b: string)
    requires OneLine(a) && OneLine(b)
    requires a == "" || b == "" || a[|a| - 1] != '\r' || b[0] != '\n'
    ensures OneLine(a + b)
  {
    forall k ensures !MatchAt(a + b, CRLF, k) {
      CrlfAt(a + b, k);
      CrlfAt(a, k);
      CrlfAt(b, k - |a|);
    }
  }

  lemma OneLineWithout(s: string)
    requires '\r' !in s || '\n' !in s
    ensures OneLine(s)
  {
    forall k ensures !MatchAt(s, CRLF, k) {
      CrlfAt(s, k);
    }
  }

  // ------------------------------------------------- trimming and case folding

  predicate IsBlank(c: char) { c == ' ' || c == '\t' }

  function TrimLeft(s: string): (r: string)
    ensures r == "" || !IsBlank(r[0])
  {
    if s != "" && IsBlank(s[0]) then TrimLeft(s[1..]) else s
  }

  function TrimRight(s: string): (r: string)
    ensures r == "" || !IsBlank(r[|r| - 1])
    ensures |r| <= |s| && r == s[..|r|]
  {
    if s != "" && IsBlank(s[|s| - 1]) then TrimRight(s[..|s| - 1]) else s
  }

  /** Spaces and tabs removed at both ends. */
  function Trim(s: string): (r: string)
    ensures r == "" || (!IsBlank(r[0]) && !IsBlank(r[|r| - 1]))
  {
    TrimRight(TrimLeft(s))
  }

  /** Nothing but spaces and tabs. */
  ghost predicate AllBlank(s: string) {
    forall i :: 0 <= i < |s| ==> s[i] == ' ' || s[i] == '\t'
  }

  /** No blank at either end: what trimming leaves alone. */
  predicate Trimmed(s: string) {
    s == "" || (s[0] != ' ' && s[0] != '\t' && s[|s| - 1] != ' ' && s[|s| - 1] != '\t')
  }

  lemma {:induction false} TrimLeftIs(l: string, s: string)
    requires AllBlank(l) && (s == "" || !IsBlank(s[0]))
    ensures TrimLeft(l + s) == s
  {
    if l == "" {
      assert l + s == s;
    } else {
      assert (l + s)[1..] == l[1..] + s;
      TrimLeftIs(l[1..], s);
    }
  }

  lemma {:induction false} TrimRightIs(s: string, r: string)
    requires AllBlank(r) && (s == "" || !IsBlank(s[|s| - 1]))
    ensures TrimRight(s + r) == s
  {
    if r == "" {
      assert s + r == s;
    } else {
      assert (s + r)[..|s + r| - 1] == s + r[..|r| - 1];
      TrimRightIs(s, r[..|r| - 1]);
    }
  }

  /** The only trimmed text with blanks around it that gives `l + s + r` is `s`. */
  lemma TrimIs(l: string, s: string, r: string)
    requires AllBlank(l) && AllBlank(r) && Trimmed(s)
    ensures Trim(l + s + r) == s
  {
    if s == "" {
      assert l + s + r == (l + r) + "";
      TrimLeftIs(l + r, "");
    } else {
      assert l + s + r == l + (s + r);
      TrimLeftIs(l, s + r);
      TrimRightIs(s, r);
    }
  }

  lemma {:induction false} TrimLeftSplit(s: string) returns (l: string)
    ensures AllBlank(l) && s == l + TrimLeft(s)
  {
    if s != "" && IsBlank(s[0]) {
      var l' := TrimLeftSplit(s[1..]);
      l := [s[0]] + l';
      Assoc([s[0]], l', TrimLeft(s[1..]));
      assert s == [s[0]] + s[1..];
    } else {
      l := "";
    }
  }

  lemma {:induction false} TrimRightSplit(s: string) returns (r: string)
    ensures AllBlank(r) && s == TrimRight(s) + r
  {
    if s != "" && IsBlank(s[|s| - 1]) {
      var r' := TrimRightSplit(s[..|s| - 1]);
      r := r' + [s[|s| - 1]];
      Assoc(TrimRight(s[..|s| - 1]), r', [s[|s| - 1]]);
      assert s == s[..|s| - 1] + [s[|s| - 1]];
    } else {
      r := "";
    }
  }

  /** Every text is its trimmed form between two runs of blanks. */
  lemma TrimSplit(s: string) returns (l: string, r: string)
    ensures AllBlank(l) && AllBlank(r) && Trimmed(Trim(s))
    ensures s == l + Trim(s) + r
  {
    l := TrimLeftSplit(s);
    r := TrimRightSplit(TrimLeft(s));
  }

  lemma TrimOneLine(s: string)
    requires OneLine(s)
    ensures OneLine(Trim(s))
  {
    var l, r := TrimSplit(s);
    assert s[|l|..|l| + |Trim(s)|] == Trim(s);
    OneLinePart(s, |l|, |l| + |Trim(s)|);
  }

  lemma TrimPadded(s: string)
    ensures Trim(" " + s) == Trim(s)
    ensures Trimmed(s) ==> Trim(s) == s
  {
    var l, r := TrimSplit(s);
    assert " " + s == (" " + l) + Trim(s) + r;
    TrimIs(" " + l, Trim(s), r);
    if Trimmed(s) {
      assert s == "" + s + "";
      TrimIs("", s, "");
    }
  }

  /** `trimStr`: two indices moving inwards. */
  method TrimStr(s: string) returns (r: string)
    ensures r == Trim(s)
  {
    var a := 0;
    while a < |s| && IsBlank(s[a])
      invariant 0 <= a <= |s|
      invariant AllBlank(s[..a])
    {
      a := a + 1;
    }
    var b := |s|;
    while b > a && IsBlank(s[b - 1])
      invariant a <= b <= |s|
      invariant AllBlank(s[b..])
    {
      b := b - 1;
    }
    r := s[a..b];
    assert s == s[..a] + r + s[b..];
    TrimIs(s[..a], r, s[b..]);
  }

  function LowerChar(c: char): char {
    if 'A' <= c <= 'Z' then (c as int + 32) as char else c
  }

  /** `tolower` on every character, in the C locale. */
  function Lower(s: string): (r: string)
    ensures |r| == |s|
    ensures forall i :: 0 <= i < |s| ==> r[i] == LowerChar(s[i])
  {
    seq(|s|, i requires 0 <= i < |s| => LowerChar(s[i]))
  }

  lemma LowerConcat(a: string, b: string)
    ensures Lower(a + b) == Lower(a) + Lower(b)
  {
  }

  lemma LowerKeepsBreaks(s: string, i: int)
    ensures MatchAt(Lower(s), CRLF, i) <==> MatchAt(s, CRLF, i)
  {
    CrlfAt(s, i);
    CrlfAt(Lower(s), i);
  }

  lemma LowerFind(s: string, from: nat)
    ensures Find(Lower(s), CRLF, from) == Find(s, CRLF, from)
  {
    forall i: int ensures MatchAt(Lower(s), CRLF, i) <==> MatchAt(s, CRLF, i) { LowerKeepsBreaks(s, i); }
    match Find(s, CRLF, from) {
      case Some(i) => FindIs(Lower(s), CRLF, from, i);
      case None =>
    }
  }

  lemma LowerOneLine(s: string)
    requires OneLine(s)
    ensures OneLine(Lower(s))
  {
    hide Lower;
    forall i ensures !MatchAt(Lower(s), CRLF, i) { LowerKeepsBreaks(s, i); }
  }

  lemma LowerLower(s: string)
    ensures Lower(Lower(s)) == Lower(s)
    ensures Trimmed(s) ==> Trimmed(Lower(s))
    ensures ':' !in s ==> ':' !in Lower(s)
  {
  }

  const CAPITALS := "ABCDEFGHIJKLMNOPQRSTUVWXYZ"
  const SMALL := "abcdefghijklmnopqrstuvwxyz"

  lemma AlphabetRuns(k: int)
    requires 0 <= k < 26
    ensures |CAPITALS| == |SMALL| == 26
    ensures CAPITALS[k] as int == 'A' as int + k && SMALL[k] as int == 'a' as int + k
  {
  }

  /** Capital letters become the small ones of the same place, and every other character stays. */
  lemma LowerCharIs(c: char)
    ensures forall k :: 0 <= k < 26 && c == CAPITALS[k] ==> LowerChar(c) == SMALL[k]
    ensures c !in CAPITALS ==> LowerChar(c) == c
    ensures LowerChar(c) !in CAPITALS
  {
    hide CAPITALS, SMALL;
    forall k | 0 <= k < 26
      ensures |CAPITALS| == |SMALL| == 26
      ensures CAPITALS[k] as int == 'A' as int + k && SMALL[k] as int == 'a' as int + k
    {
      AlphabetRuns(k);
    }
    AlphabetRuns(0);
    if 'A' <= c <= 'Z' {
      assert CAPITALS[c as int - 'A' as int] == c;
    }
  }

  /** The same letter in the two alphabets, or the same character. */
  ghost predicate SameLetter(a: char, b: char) {
    || a == b
    || exists k :: 0 <= k < 26 && ((a == CAPITALS[k] && b == SMALL[k]) || (a == SMALL[k] && b == CAPITALS[k]))
  }

  lemma SameLetterIff(a: char, b: char)
    ensures SameLetter(a, b) <==> LowerChar(a) == LowerChar(b)
  {
    hide CAPITALS, SMALL;
    forall k | 0 <= k < 26
      ensures |CAPITALS| == |SMALL| == 26
      ensures CAPITALS[k] as int == 'A' as int + k && SMALL[k] as int == 'a' as int + k
    {
      AlphabetRuns(k);
    }
    AlphabetRuns(0);
    if 'A' <= a <= 'Z' && LowerChar(a) == b {
      var k := a as int - 'A' as int;
      assert a == CAPITALS[k] && b == SMALL[k];
    }
    if 'A' <= b <= 'Z' && LowerChar(b) == a {
      var k := b as int - 'A' as int;
      assert b == CAPITALS[k] && a == SMALL[k];
    }
  }

  /** Texts that differ in the case of letters only. */
  ghost predicate SameButCase(s: string, t: string) {
    |s| == |t| && forall i :: 0 <= i < |s| ==> SameLetter(s[i], t[i])
  }

  /** Folding identifies exactly the texts that differ in the case of letters. */
  lemma LowerAlikeIff(s: string, t: string)
    ensures Lower(s) == Lower(t) <==> SameButCase(s, t)
  {
    hide SameLetter;
    forall a, b ensures SameLetter(a, b) <==> LowerChar(a) == LowerChar(b) { SameLetterIff(a, b); }
    if Lower(s) == Lower(t) {
      forall i | 0 <= i < |s| ensures SameLetter(s[i], t[i]) {
        assert Lower(s)[i] == Lower(t)[i];
      }
    }
  }

  /** Text without capital letters, and no other, is its own lower case, which never has one. */
  lemma LowerFixedIff(s: string)
    ensures Lower(s) == s <==> forall c :: c in s ==> c !in CAPITALS
    ensures forall c :: c in Lower(s) ==> c !in CAPITALS
  {
    forall c ensures (c !in CAPITALS ==> LowerChar(c) == c) && LowerChar(c) !in CAPITALS { LowerCharIs(c); }
    hide CAPITALS;
    if Lower(s) == s {
      forall c | c in s ensures c !in CAPITALS { assert c in Lower(s); }
    }
  }

  lemma LowerFixed(s: string)
    requires forall i :: 0 <= i < |s| ==> !('A' <= s[i] <= 'Z')
    ensures Lower(s) == s
  {
  }

  method ToLower(s: string) returns (r: string)
    ensures r == Lower(s)
  {
    r := "";
    for i := 0 to |s|
      invariant r == Lower(s)[..i]
    {
      r := r + [LowerChar(s[i])];
    }
  }

  // ------------------------------------------------------------------ words

  predicate IsSpace(c: char) {
    c == ' ' || c == '\t' || c == '\n' || c == '\r' || c == '\U{0b}' || c == '\U{0c}'
  }

  predicate IsWord(w: string) {
    w != "" && forall i :: 0 <= i < |w| ==> !IsSpace(w[i])
  }

  /** How many characters a word starting at the front of `s` has. */
  function WordLength(s: string): (n: nat)
    ensures n <= |s|
    ensures forall i :: 0 <= i < n ==> !IsSpace(s[i])
    ensures n < |s| ==> IsSpace(s[n])
  {
    if s == "" || IsSpace(s[0]) then 0 else 1 + WordLength(s[1..])
  }

  /** The words repeated `stream >> word` extracts. */
  function Words(s: string): (ws: seq<string>)
    ensures forall i :: 0 <= i < |ws| ==> IsWord(ws[i])
  {
    if s == "" then []
    else if IsSpace(s[0]) then Words(s[1..])
    else [s[..WordLength(s)]] + Words(s[WordLength(s)..])
  }

  lemma {:induction false} WordLengthIs(w: string, rest: string)
    requires forall i :: 0 <= i < |w| ==> !IsSpace(w[i])
    requires rest == "" || IsSpace(rest[0])
    ensures WordLength(w + rest) == |w|
  {
    if w == "" {
      assert w + rest == rest;
    } else {
      assert (w + rest)[1..] == w[1..] + rest;
      WordLengthIs(w[1..], rest);
    }
  }

  lemma WordsCons(w: string, rest: string)
    requires IsWord(w) && (rest == "" || IsSpace(rest[0]))
    ensures Words(w + rest) == [w] + Words(rest)
  {
    WordLengthIs(w, rest);
    var s := w + rest;
    assert s[0] == w[0];
    assert s[..|w|] == w && s[|w|..] == rest;
  }

  lemma WordsSkip(s: string)
    ensures Words(" " + s) == Words(s)
    ensures Words("") == []
  {
    assert (" " + s)[1..] == s;
  }

  /** Three words with single spaces between them are read back as those words. */
  lemma ThreeWords(a: string, b: string, c: string)
    requires IsWord(a) && IsWord(b) && IsWord(c)
    ensures Words(a + " " + b + " " + c) == [a, b, c]
  {
    hide Words, IsWord;
    assert a + " " + b + " " + c == a + (" " + (b + (" " + c)));
    WordsCons(a, " " + (b + (" " + c)));
    WordsSkip(b + (" " + c));
    WordsCons(b, " " + c);
    WordsSkip(c);
    assert c + "" == c;
    WordsCons(c, "");
  }

  // ---------------------------------------------- words with any white space

  /** What separates words: the six white-space characters of the C locale. */
  ghost predicate Gap(s: string) {
    forall i :: 0 <= i < |s| ==>
      s[i] == ' ' || s[i] == '\t' || s[i] == '\n' || s[i] == '\r' || s[i] == '\U{0b}' || s[i] == '\U{0c}'
  }

  /** A text with none of them. */
  ghost predicate Solid(s: string) {
    s != "" && forall i :: 0 <= i < |s| ==>
      s[i] != ' ' && s[i] != '\t' && s[i] != '\n' && s[i] != '\r' && s[i] != '\U{0b}' && s[i] != '\U{0c}'
  }

  lemma SolidIsWord(w: string)
    ensures Solid(w) <==> IsWord(w)
  {
  }

  /** Words with a gap in front of each, and one at the end. */
  function Spread(gaps: seq<string>, ws: seq<string>): string
    requires |gaps| == |ws| + 1
  {
    if ws == [] then gaps[0] else gaps[0] + (ws[0] + Spread(gaps[1..], ws[1..]))
  }

  ghost predicate SpreadOut(gaps: seq<string>, ws: seq<string>) {
    && |gaps| == |ws| + 1
    && (forall i :: 0 <= i < |ws| ==> Solid(ws[i]))
    && (forall i :: 0 <= i < |gaps| ==> Gap(gaps[i]))
    && (forall i :: 0 < i < |ws| ==> gaps[i] != "")
  }

  lemma {:induction false} WordsSkipGap(gap: string, s: string)
    requires Gap(gap)
    ensures Words(gap + s) == Words(s)
  {
    if gap == "" {
      assert gap + s == s;
    } else {
      assert (gap + s)[1..] == gap[1..] + s;
      WordsSkipGap(gap[1..], s);
    }
  }

  /** Any words with any white space between and around them are extracted as those words. */
  lemma {:induction false} WordsOfSpread(gaps: seq<string>, ws: seq<string>)
    requires SpreadOut(gaps, ws)
    ensures Words(Spread(gaps, ws)) == ws
    decreases |ws|
  {
    hide Words, IsWord;
    if ws == [] {
      assert gaps[0] == gaps[0] + "";
      WordsSkipGap(gaps[0], "");
      WordsSkip("");
    } else {
      var rest := Spread(gaps[1..], ws[1..]);
      WordsSkipGap(gaps[0], ws[0] + rest);
      SolidIsWord(ws[0]);
      SpreadStart(gaps[1..], ws[1..]);
      WordsCons(ws[0], rest);
      WordsOfSpread(gaps[1..], ws[1..]);
    }
  }

  /** Every text is words with gaps. */
  lemma {:induction false} TextIsSpread(s: string) returns (gaps: seq<string>, ws: seq<string>)
    ensures SpreadOut(gaps, ws) && s == Spread(gaps, ws)
  {
    hide SpreadOut, Spread;
    if s == "" {
      gaps, ws := [""], [];
      NothingSpread();
    } else {
      var g, v := TextIsSpread(s[1..]);
      assert s == [s[0]] + s[1..];
      gaps, ws := OneMoreChar(s[0], g, v);
    }
  }

  lemma NothingSpread()
    ensures SpreadOut([""], []) && Spread([""], []) == ""
  {
  }

  /** A character in front of spread words goes to the gap, to the word it touches, or is a new word. */
  lemma OneMoreChar(c: char, g: seq<string>, v: seq<string>) returns (gaps: seq<string>, ws: seq<string>)
    requires SpreadOut(g, v)
    ensures SpreadOut(gaps, ws) && Spread(gaps, ws) == [c] + Spread(g, v)
  {
    if IsSpace(c) {
      gaps, ws := [[c] + g[0]] + g[1..], v;
      SpreadFirstGap([c], g, v);
    } else if v != [] && g[0] == "" {
      gaps, ws := g, [[c] + v[0]] + v[1..];
      assert g[0] + (v[0] + Spread(g[1..], v[1..])) == v[0] + Spread(g[1..], v[1..]);
      assert ws[1..] == v[1..];
    } else {
      gaps, ws := [""] + g, [[c]] + v;
      assert gaps[1..] == g && ws[1..] == v;
    }
  }

  lemma SpreadFirstGap(c: string, g: seq<string>, v: seq<string>)
    requires |g| == |v| + 1
    ensures Spread([c + g[0]] + g[1..], v) == c + Spread(g, v)
  {
    assert ([c + g[0]] + g[1..])[1..] == g[1..];
  }

  lemma SpreadStart(gaps: seq<string>, ws: seq<string>)
    requires SpreadOut(gaps, ws) && (ws != [] ==> gaps[0] != "")
    ensures Spread(gaps, ws) == "" || IsSpace(Spread(gaps, ws)[0])
  {
  }
}
