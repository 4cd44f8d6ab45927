/**
 The base64 and base64url codec of jwt-cpp (`jwt::base`).
 Binary data is a sequence of bytes, encoded data is text. A C++ shift right by
 k bits is a division by 2^k, a mask with 2^k - 1 a remainder, a shift left a
 multiplication; every value stays far below 2^32.
 */
module Base64 {
  import opened Wrappers
  import opened Text

  type Byte = b: int | 0 <= b < 256
  type Bytes = seq<Byte>

  datatype DecodeError = TooMuchFill | IncorrectSize | NotInAlphabet

  // --------------------------------------------------------------- alphabets

  /** The number a symbol of either alphabet stands for (RFC 4648, tables 1 and 2). */
  function Rank(c: char): int {
    if 'A' <= c <= 'Z' then c as int - 'A' as int
    else if 'a' <= c <= 'z' then c as int - 'a' as int + 26
    else if '0' <= c <= '9' then c as int - '0' as int + 52
    else if c == '+' || c == '-' then 62
    else 63
  }

  /** 64 symbols in the order of their rank, and the fill string. */
  datatype AlphabetTable = AlphabetTable(data: string, fill: string) {
    ghost predicate Proper() {
      |data| == 64 && |fill| > 0 && forall k :: 0 <= k < 64 ==> Rank(data[k]) == k && data[k] != fill[0]
    }
  }

  const UPPER := "ABCDEFGHIJKLMNOPQRSTUVWXYZ"
  const LOWER := "abcdefghijklmnopqrstuvwxyz"
  const DIGITS := "0123456789"
  const LETTERS_AND_DIGITS := UPPER + LOWER + DIGITS

  lemma UpperRun(k: int)
    requires 0 <= k < 26
    ensures UPPER[k] as int == 'A' as int + k
  {
  }

  lemma LowerRun(k: int)
    requires 0 <= k < 26
    ensures LOWER[k] as int == 'a' as int + k
  {
  }

  lemma DigitRun(k: int)
    requires 0 <= k < 10
    ensures DIGITS[k] as int == '0' as int + k
  {
  }

  /** Where each of the four runs of a table lies. */
  lemma TableRuns(upper: string, lower: string, digits: string, last: string, k: int)
    requires |upper| == 26 && |lower| == 26 && |digits| == 10 && |last| == 2 && 0 <= k < 64
    ensures |upper + lower + digits + last| == 64
    ensures (upper + lower + digits + last)[k] ==
            if k < 26 then upper[k]
            else if k < 52 then lower[k - 26]
            else if k < 62 then digits[k - 52]
            else last[k - 62]
  {
  }

  lemma TableEntry(last: string, k: int)
    requires last == "+/" || last == "-_"
    requires 0 <= k < 64
    ensures |LETTERS_AND_DIGITS + last| == 64
    ensures Rank((LETTERS_AND_DIGITS + last)[k]) == k
    ensures (LETTERS_AND_DIGITS + last)[k] != '=' && (LETTERS_AND_DIGITS + last)[k] != '%'
  {
    hide UPPER, LOWER, DIGITS;
    RunLengths();
    TableRuns(UPPER, LOWER, DIGITS, last, k);
    if k < 26 {
      UpperRun(k);
    } else if k < 52 {
      LowerRun(k - 26);
    } else if k < 62 {
      DigitRun(k - 52);
    }
  }

  lemma RunLengths()
    ensures |UPPER| == 26 && |LOWER| == 26 && |DIGITS| == 10
  {
  }

  lemma ProperTable(data: string, last: string, fill: string)
    requires data == LETTERS_AND_DIGITS + last
    requires last == "+/" || last == "-_"
    requires fill == "=" || fill == "%3d"
    ensures AlphabetTable(data, fill).Proper()
  {
    TableEntry(last, 0);
    forall k | 0 <= k < 64 ensures Rank(data[k]) == k && data[k] != fill[0] {
      TableEntry(last, k);
    }
  }

  lemma BothTablesProper()
    ensures AlphabetTable(LETTERS_AND_DIGITS + "+/", "=").Proper()
    ensures AlphabetTable(LETTERS_AND_DIGITS + "-_", "%3d").Proper()
  {
    ProperTable(LETTERS_AND_DIGITS + "+/", "+/", "=");
    ProperTable(LETTERS_AND_DIGITS + "-_", "-_", "%3d");
  }

  /** The tables with the properties both alphabets of base.h have, `base64` (the witness) among them. */
  type Alphabet = a: AlphabetTable | a.Proper()
    ghost witness (BothTablesProper(); AlphabetTable(LETTERS_AND_DIGITS + "+/", "="))

  const BASE64URL: Alphabet := (BothTablesProper(); AlphabetTable(LETTERS_AND_DIGITS + "-_", "%3d"))

  lemma SymbolOfRank(a: Alphabet, c: char)
    requires c in a.data
    ensures 0 <= Rank(c) < 64 && a.data[Rank(c)] == c
    ensures c != a.fill[0]
  {
    var k :| 0 <= k < 64 && a.data[k] == c;
  }

  ghost predicate InAlphabet(a: Alphabet, s: string) {
    forall i :: 0 <= i < |s| ==> s[i] in a.data
  }

  // --------------------------------------------------------------- encoding

  /** The four sextets of three octets: 24 bits cut every six bits (RFC 4648, section 4). */
  function Regroup(x: Byte, y: Byte, z: Byte): (q: seq<int>)
    ensures |q| == 4 && forall i :: 0 <= i < 4 ==> 0 <= q[i] < 64
  {
    [x / 4, x % 4 * 16 + y / 16, y % 16 * 4 + z / 64, z % 64]
  }

  function Quad(a: Alphabet, x: Byte, y: Byte, z: Byte): (q: string)
    ensures |q| == 4
    ensures forall i :: 0 <= i < 4 ==> Rank(q[i]) == Regroup(x, y, z)[i] && q[i] in a.data
  {
    var g := Regroup(x, y, z);
    [a.data[g[0]], a.data[g[1]], a.data[g[2]], a.data[g[3]]]
  }

  /** The symbols of an encoding, before any fill. */
  function Symbols(a: Alphabet, x: Bytes): (s: string) {
    if |x| >= 3 then Quad(a, x[0], x[1], x[2]) + Symbols(a, x[3..])
    else if |x| == 2 then Quad(a, x[0], x[1], 0)[..3]
    else if |x| == 1 then Quad(a, x[0], 0, 0)[..2]
    else ""
  }

  lemma {:induction false} SymbolsLength(a: Alphabet, x: Bytes)
    ensures |Symbols(a, x)| == |x| / 3 * 4 + (if |x| % 3 == 0 then 0 else |x| % 3 + 1)
    ensures InAlphabet(a, Symbols(a, x))
  {
    if |x| < 3 {
    } else {
      SymbolsLength(a, x[3..]);
    }
  }

  function Repeat(fill: string, k: nat): string {
    if k == 0 then "" else Repeat(fill, k - 1) + fill
  }

  /** How many fills complete `n` symbols to a multiple of four; 3 stands for "cannot". */
  function Missing(n: nat): (k: nat)
    ensures k < 4 && (n + k) % 4 == 0
  {
    (4 - n % 4) % 4
  }

  function Encode(a: Alphabet, x: Bytes): string {
    Symbols(a, x) + Repeat(a.fill, Missing(|Symbols(a, x)|))
  }

  lemma TwoFills(a: Alphabet)
    ensures Repeat(a.fill, 0) == ""
    ensures Repeat(a.fill, 1) == a.fill
    ensures Repeat(a.fill, 2) == a.fill + a.fill
    ensures Repeat(a.fill, 3) == a.fill + a.fill + a.fill
  {
    assert Repeat(a.fill, 1) == Repeat(a.fill, 0) + a.fill;
    assert Repeat(a.fill, 2) == Repeat(a.fill, 1) + a.fill;
    assert Repeat(a.fill, 3) == Repeat(a.fill, 2) + a.fill;
  }

  lemma FirstSextet(x: Byte, y: Byte, z: Byte)
    ensures (x * 0x1_0000 + y * 0x100 + z) / 0x4_0000 == x / 4
  {
  }

  lemma SecondSextet(x: Byte, y: Byte, z: Byte)
    ensures (x * 0x1_0000 + y * 0x100 + z) / 0x1000 == 64 * (x / 4) + (x % 4 * 16 + y / 16)
  {
  }

  lemma ThirdSextet(x: Byte, y: Byte, z: Byte)
    ensures (x * 0x1_0000 + y * 0x100 + z) / 0x40 == 64 * (x * 16 + y / 16) + (y % 16 * 4 + z / 64)
  {
  }

  lemma LowSextet(k: int, r: int)
    requires 0 <= r < 64
    ensures (64 * k + r) % 64 == r
  {
  }

  /** Shifting and masking the 24-bit number of three octets regroups their bits. */
  lemma ShiftsRegroup(x: Byte, y: Byte, z: Byte)
    ensures var t := x * 0x1_0000 + y * 0x100 + z;
            [t / 0x4_0000 % 64, t / 0x1000 % 64, t / 0x40 % 64, t % 64] == Regroup(x, y, z)
  {
    FirstSextet(x, y, z);
    SecondSextet(x, y, z);
    ThirdSextet(x, y, z);
    LowSextet(0, x / 4);
    LowSextet(x / 4, x % 4 * 16 + y / 16);
    LowSextet(x * 16 + y / 16, y % 16 * 4 + z / 64);
    LowSextet(x * 1024 + y * 4 + z / 64, z % 64);
  }

  /** One pass of the encoder's loop body. */
  method EncodeTriple(a: Alphabet, octetA: Byte, octetB: Byte, octetC: Byte) returns (q: string)
    ensures q == Quad(a, octetA, octetB, octetC)
  {
    var triple := octetA * 0x1_0000 + octetB * 0x100 + octetC;
    ShiftsRegroup(octetA, octetB, octetC);
    q := [a.data[triple / 0x4_0000 % 64]];
    q := q + [a.data[triple / 0x1000 % 64]];
    q := q + [a.data[triple / 0x40 % 64]];
    q := q + [a.data[triple % 64]];
  }

  /** The encodings of at most two bytes. */
  lemma EncodeShort(a: Alphabet, rest: Bytes)
    requires |rest| < 3
    ensures |rest| == 0 ==> Encode(a, rest) == ""
    ensures |rest| == 1 ==> Encode(a, rest) == Quad(a, rest[0], 0, 0)[..2] + (a.fill + a.fill)
    ensures |rest| == 2 ==> Encode(a, rest) == Quad(a, rest[0], rest[1], 0)[..3] + a.fill
  {
    hide Quad, Repeat;
    TwoFills(a);
  }

  /** The switch on `size % 3` at the end of the encoder. */
  method EncodeTail(a: Alphabet, rest: Bytes) returns (res: string)
    requires |rest| < 3
    ensures res == Encode(a, rest)
  {
    hide Quad, Encode;
    EncodeShort(a, rest);
    if |rest| == 0 { return ""; }
    var octetB := if 1 < |rest| then rest[1] else 0;
    var q := EncodeTriple(a, rest[0], octetB, 0);
    if |rest| == 1 {
      res := q[..2];
      res := res + a.fill;
      res := res + a.fill;
    } else {
      res := q[..3];
      res := res + a.fill;
    }
  }

  lemma MissingIgnoresQuads(n: nat)
    ensures Missing(n + 4) == Missing(n)
  {
  }

  lemma EncodeStep(a: Alphabet, x: Bytes)
    requires |x| >= 3
    ensures Encode(a, x) == Quad(a, x[0], x[1], x[2]) + Encode(a, x[3..])
  {
    hide Quad, Missing, Repeat;
    var s := Symbols(a, x[3..]);
    MissingIgnoresQuads(|s|);
    assert Symbols(a, x) == Quad(a, x[0], x[1], x[2]) + s;
  }

  /** `base::encode`: whole triples first, then the one- or two-byte tail. */
  method EncodeText(a: Alphabet, bin: Bytes) returns (res: string)
    ensures res == Encode(a, bin)
  {
    hide Encode, Quad;
    var size := |bin|;
    res := "";
    var fastSize := size - size % 3;
    var i := 0;
    assert bin[0..] == bin;
    while i < fastSize
      invariant 0 <= i <= fastSize && i % 3 == 0
      invariant Encode(a, bin) == res + Encode(a, bin[i..])
    {
      var q := EncodeTriple(a, bin[i], bin[i + 1], bin[i + 2]);
      EncodeStep(a, bin[i..]);
      assert bin[i..][3..] == bin[i + 3..];
      res := res + q;
      i := i + 3;
    }
    var tail := EncodeTail(a, bin[fastSize..]);
    res := res + tail;
  }

  // --------------------------------------------------------------- decoding

  /** Takes fills off the end while more than one fill is left; None when there are three. */
  function StripFill(fill: string, s: string, count: nat): (r: Option<(string, nat)>)
    requires |fill| > 0 && count <= 2
    ensures r.Some? ==> count <= r.value.1 <= 2
    decreases |s|
  {
    if |s| > |fill| && s[|s| - |fill|..] == fill then
      if count + 1 > 2 then None else StripFill(fill, s[..|s| - |fill|], count + 1)
    else Some((s, count))
  }

  /** The three octets of four sextets: Regroup read backwards. */
  function Ungroup(q0: int, q1: int, q2: int, q3: int): (o: Bytes)
    requires 0 <= q0 < 64 && 0 <= q1 < 64 && 0 <= q2 < 64 && 0 <= q3 < 64
    ensures |o| == 3
  {
    [q0 * 4 + q1 / 16, q1 % 16 * 16 + q2 / 4, q2 % 4 * 64 + q3]
  }

  function Octets(c0: char, c1: char, c2: char, c3: char): (o: Bytes)
    ensures |o| == 3
  {
    Ungroup(Rank(c0), Rank(c1), Rank(c2), Rank(c3))
  }

  /** Absent sextets count as zero, which is what 'A' stands for. */
  function DecodeBody(s: string): Bytes {
    if |s| >= 4 then Octets(s[0], s[1], s[2], s[3]) + DecodeBody(s[4..])
    else if |s| == 3 then Octets(s[0], s[1], s[2], 'A')[..2]
    else if |s| == 2 then Octets(s[0], s[1], 'A', 'A')[..1]
    else []
  }

  ghost function Decode(a: Alphabet, s: string): Result<Bytes, DecodeError> {
    match StripFill(a.fill, s, 0)
    case None => Err(TooMuchFill)
    case Some((body, k)) =>
      if (|body| + k) % 4 != 0 then Err(IncorrectSize)
      else if !InAlphabet(a, body) then Err(NotInAlphabet)
      else Ok(DecodeBody(body))
  }

  /** `get_sextet`: a linear search of the alphabet. */
  method GetSextet(a: Alphabet, c: char) returns (r: Option<int>)
    ensures r == if c in a.data then Some(Rank(c)) else None
  {
    for i := 0 to 64
      invariant c !in a.data[..i]
    {
      if a.data[i] == c { return Some(i); }
    }
    return None;
  }

  lemma HighOctet(q0: int, q1: int, q2: int, q3: int)
    requires 0 <= q0 < 64 && 0 <= q1 < 64 && 0 <= q2 < 64 && 0 <= q3 < 64
    ensures (q0 * 0x4_0000 + q1 * 0x1000 + q2 * 0x40 + q3) / 0x1_0000 == q0 * 4 + q1 / 16
  {
  }

  lemma MiddleOctet(q0: int, q1: int, q2: int, q3: int)
    requires 0 <= q0 < 64 && 0 <= q1 < 64 && 0 <= q2 < 64 && 0 <= q3 < 64
    ensures (q0 * 0x4_0000 + q1 * 0x1000 + q2 * 0x40 + q3) / 0x100
            == 256 * (q0 * 4 + q1 / 16) + (q1 % 16 * 16 + q2 / 4)
  {
  }

  lemma LowOctet(k: int, r: int)
    requires 0 <= r < 256
    ensures (256 * k + r) % 256 == r
  {
  }

  /** Shifting and masking the 24-bit number of four sextets gives their octets. */
  lemma ShiftsUngroup(q0: int, q1: int, q2: int, q3: int)
    requires 0 <= q0 < 64 && 0 <= q1 < 64 && 0 <= q2 < 64 && 0 <= q3 < 64
    ensures var t := q0 * 0x4_0000 + q1 * 0x1000 + q2 * 0x40 + q3;
            [t / 0x1_0000 % 256, t / 0x100 % 256, t % 256] == Ungroup(q0, q1, q2, q3)
  {
    HighOctet(q0, q1, q2, q3);
    MiddleOctet(q0, q1, q2, q3);
    LowOctet(0, q0 * 4 + q1 / 16);
    LowOctet(q0 * 4 + q1 / 16, q1 % 16 * 16 + q2 / 4);
    LowOctet(q0 * 1024 + q1 * 16 + q2 / 4, q2 % 4 * 64 + q3);
  }

  /** One pass of the decoder's loop body; None when a character is not a symbol. */
  method DecodeQuad(a: Alphabet, quad: string) returns (r: Option<Bytes>)
    requires |quad| == 4
    ensures r == if InAlphabet(a, quad) then Some(Octets(quad[0], quad[1], quad[2], quad[3])) else None
  {
    var sextetA := GetSextet(a, quad[0]);
    if sextetA.None? { return None; }
    var sextetB := GetSextet(a, quad[1]);
    if sextetB.None? { return None; }
    var sextetC := GetSextet(a, quad[2]);
    if sextetC.None? { return None; }
    var sextetD := GetSextet(a, quad[3]);
    if sextetD.None? { return None; }
    var triple := sextetA.value * 0x4_0000 + sextetB.value * 0x1000 + sextetC.value * 0x40 + sextetD.value;
    ShiftsUngroup(sextetA.value, sextetB.value, sextetC.value, sextetD.value);
    var octets := [triple / 0x1_0000 % 256, triple / 0x100 % 256, triple % 256];
    assert InAlphabet(a, quad);
    r := Some(octets);
  }

  /** The two- or three-symbol tail after whole quads, by number of fills. */
  method DecodeTail(a: Alphabet, tail: string, fillCount: nat) returns (r: Option<Bytes>)
    requires fillCount == 1 || fillCount == 2
    requires |tail| == 4 - fillCount
    ensures r == DecodeChecked(a, tail)
  {
    var sextetA := GetSextet(a, tail[0]);
    if sextetA.None? { return None; }
    var sextetB := GetSextet(a, tail[1]);
    if sextetB.None? { return None; }
    var triple := sextetA.value * 0x4_0000 + sextetB.value * 0x1000;
    if fillCount == 1 {
      var sextetC := GetSextet(a, tail[2]);
      if sextetC.None? { return None; }
      // the source ors the third sextet in: its bits are still clear
      triple := triple + sextetC.value * 0x40;
      ShiftsUngroup(sextetA.value, sextetB.value, sextetC.value, 0);
      var octets := [triple / 0x1_0000 % 256, triple / 0x100 % 256];
      assert octets == Ungroup(sextetA.value, sextetB.value, sextetC.value, 0)[..2];
      r := Some(octets);
    } else {
      ShiftsUngroup(sextetA.value, sextetB.value, 0, 0);
      var octets := [triple / 0x1_0000 % 256];
      assert octets == Ungroup(sextetA.value, sextetB.value, 0, 0)[..1];
      r := Some(octets);
    }
    assert InAlphabet(a, tail);
  }

  lemma InAlphabetSplit(a: Alphabet, s: string, i: nat)
    requires i <= |s|
    ensures InAlphabet(a, s) <==> InAlphabet(a, s[..i]) && InAlphabet(a, s[i..])
  {
    assert s == s[..i] + s[i..];
    if InAlphabet(a, s[..i]) && InAlphabet(a, s[i..]) {
      forall k | 0 <= k < |s| ensures s[k] in a.data {
        if k >= i { assert s[k] == s[i..][k - i]; } else { assert s[k] == s[..i][k]; }
      }
    }
  }

  lemma QuadCount(size: nat, fillCount: nat)
    requires fillCount <= 2 && (size + fillCount) % 4 == 0
    ensures size % 4 == (if fillCount == 0 then 0 else 4 - fillCount)
    ensures (size - size % 4) % 4 == 0
  {
  }

  /** The octets of `body`, or NotInAlphabet. */
  ghost function DecodeChecked(a: Alphabet, body: string): Option<Bytes> {
    if InAlphabet(a, body) then Some(DecodeBody(body)) else None
  }

  /** Octets already decoded, in front of what the rest decodes to. */
  ghost function After(done: Bytes, rest: Option<Bytes>): Option<Bytes> {
    match rest
    case None => None
    case Some(octets) => Some(done + octets)
  }

  lemma DecodeCheckedStep(a: Alphabet, done: Bytes, s: string)
    requires |s| >= 4
    ensures InAlphabet(a, s[..4])
            ==> After(done, DecodeChecked(a, s))
                == After(done + Octets(s[0], s[1], s[2], s[3]), DecodeChecked(a, s[4..]))
    ensures !InAlphabet(a, s[..4]) ==> DecodeChecked(a, s) == None
  {
    InAlphabetSplit(a, s, 4);
    assert DecodeBody(s) == Octets(s[0], s[1], s[2], s[3]) + DecodeBody(s[4..]);
    assert done + DecodeBody(s) == done + Octets(s[0], s[1], s[2], s[3]) + DecodeBody(s[4..]);
  }

  lemma NothingLeft(a: Alphabet, done: Bytes)
    ensures After(done, DecodeChecked(a, "")) == Some(done)
  {
    assert done + [] == done;
  }

  lemma NothingDone(rest: Option<Bytes>)
    ensures After([], rest) == rest
  {
    match rest {
      case None =>
      case Some(octets) => assert [] + octets == octets;
    }
  }

  /** The quads of a text whose fills are off, then its tail. */
  method DecodeQuads(a: Alphabet, body: string, fillCount: nat) returns (r: Option<Bytes>)
    requires fillCount <= 2 && (|body| + fillCount) % 4 == 0
    ensures r == DecodeChecked(a, body)
  {
    hide DecodeBody, InAlphabet, DecodeChecked;
    QuadCount(|body|, fillCount);
    var res: Bytes := [];
    var fastSize := |body| - |body| % 4;
    var i := 0;
    assert body[0..] == body;
    NothingDone(DecodeChecked(a, body));
    while i < fastSize
      invariant 0 <= i <= fastSize && i % 4 == 0
      invariant DecodeChecked(a, body) == After(res, DecodeChecked(a, body[i..]))
    {
      DecodeCheckedStep(a, res, body[i..]);
      assert body[i..][..4] == body[i..i + 4];
      assert body[i..][4..] == body[i + 4..];
      var octets := DecodeQuad(a, body[i..i + 4]);
      if octets.None? { return None; }
      res := res + octets.value;
      i := i + 4;
    }
    NothingLeft(a, res);
    if fillCount == 0 { return Some(res); }
    var tail := DecodeTail(a, body[fastSize..], fillCount);
    if tail.None? { return None; }
    return Some(res + tail.value);
  }

  /** `base::decode`, every throw an `Err`. */
  method DecodeText(a: Alphabet, base: string) returns (r: Result<Bytes, DecodeError>)
    ensures r == Decode(a, base)
  {
    var fill := a.fill;
    var size := |base|;
    var fillCount := 0;
    assert base[..size] == base;
    while size > |fill|
      invariant 0 <= size <= |base| && 0 <= fillCount <= 2
      invariant StripFill(fill, base, 0) == StripFill(fill, base[..size], fillCount)
      decreases size
    {
      assert base[..size][size - |fill|..] == base[size - |fill|..size];
      assert base[..size][..size - |fill|] == base[..size - |fill|];
      if base[size - |fill|..size] == fill {
        fillCount := fillCount + 1;
        size := size - |fill|;
        if fillCount > 2 { return Err(TooMuchFill); }
      } else {
        break;
      }
    }
    if (size + fillCount) % 4 != 0 { return Err(IncorrectSize); }
    var octets := DecodeQuads(a, base[..size], fillCount);
    return if octets.None? then Err(NotInAlphabet) else Ok(octets.value);
  }

  // ------------------------------------------------------------ pad and trim

  function Pad(a: Alphabet, s: string): string {
    s + Repeat(a.fill, Missing(|s|))
  }

  /** `base::pad`: a switch whose cases fall through. */
  method PadText(a: Alphabet, base: string) returns (r: string)
    ensures r == Pad(a, base)
  {
    var padding, mod := "", |base| % 4;
    if mod == 1 { padding := padding + a.fill; }
    if mod == 1 || mod == 2 { padding := padding + a.fill; }
    if mod == 1 || mod == 2 || mod == 3 { padding := padding + a.fill; }
    TwoFills(a);
    r := base + padding;
  }

  /** `base::trim`: cut at the first fill. */
  function TrimFill(a: Alphabet, s: string): string {
    match Find(s, a.fill, 0)
    case None => s
    case Some(i) => s[..i]
  }
}
