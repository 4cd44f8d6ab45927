/** Decimal numbers: `std::to_string`, `std::stoi`, and the gateway's own content-length reader. */
module Numbers {
  import opened Wrappers
  import opened Text

  predicate IsDigit(c: char) { '0' <= c <= '9' }

  predicate AllDigits(s: string) {
    forall i :: 0 <= i < |s| ==> IsDigit(s[i])
  }

  function DigitChar(d: int): (c: char)
    requires 0 <= d < 10
    ensures IsDigit(c) && c as int - '0' as int == d
  {
    (d + '0' as int) as char
  }

  /** `std::to_string` of a number that is not negative. */
  function Decimal(n: nat): (s: string)
    ensures |s| > 0 && AllDigits(s)
  {
    if n < 10 then [DigitChar(n)] else Decimal(n / 10) + [DigitChar(n % 10)]
  }

  /** The number digits stand for. */
  function DigitsValue(s: string): (n: nat)
    requires AllDigits(s)
  {
    if s == "" then 0 else DigitsValue(s[..|s| - 1]) * 10 + (s[|s| - 1] as int - '0' as int)
  }

  lemma {:induction false} ValueOfDecimal(n: nat)
    ensures DigitsValue(Decimal(n)) == n
  {
    var s := Decimal(n);
    if n >= 10 {
      ValueOfDecimal(n / 10);
      assert s[..|s| - 1] == Decimal(n / 10);
    } else {
      assert s[..0] == "";
    }
  }

  function Power10(k: nat): (p: nat)
    ensures p > 0
  {
    if k == 0 then 1 else 10 * Power10(k - 1)
  }

  lemma {:induction false} DecimalLength(n: nat, k: nat)
    requires k > 0 && n < Power10(k)
    ensures |Decimal(n)| <= k
  {
    if n < 10 {
    } else {
      assert Power10(1) == 10 * Power10(0);
      DecimalLength(n / 10, k - 1);
    }
  }

  /** Lengths that fit a 64-bit size_t have at most twenty digits. */
  const SIZE_LIMIT := 0x1_0000_0000_0000_0000

  lemma SizeDigits(n: nat)
    requires n < SIZE_LIMIT
    ensures |Decimal(n)| <= 20
  {
    assert Power10(10) == 10_000_000_000;
    assert Power10(20) == 10 * 10 * 10 * 10 * 10 * 10 * 10 * 10 * 10 * 10 * Power10(10);
    DecimalLength(n, 20);
  }

  lemma {:induction false} PrefixValue(s: string, i: nat)
    requires AllDigits(s) && i <= |s|
    ensures DigitsValue(s[..i]) <= DigitsValue(s)
  {
    if i < |s| {
      assert s[..|s| - 1][..i] == s[..i];
      PrefixValue(s[..|s| - 1], i);
    } else {
      assert s[..i] == s;
    }
  }

  // --------------------------------------------------------- content length

  const MAX_LENGTH := 64 * 1024 * 1024

  /** C++ `long long`: that the loop below type checks says it never overflows. */
  newtype LongLong = x: int | -0x8000_0000_0000_0000 <= x < 0x8000_0000_0000_0000

  /** `parseContentLength`: the number, or None for `ok == false`. */
  function ContentLength(v: string): Option<nat> {
    if 1 <= |v| <= 10 && AllDigits(v) && DigitsValue(v) <= MAX_LENGTH then Some(DigitsValue(v)) else None
  }

  method ParseContentLength(v: string) returns (n: LongLong, ok: bool)
    ensures ok <==> ContentLength(v).Some?
    ensures ok ==> n as int == ContentLength(v).value
    ensures !ok ==> n == 0
  {
    if v == "" || |v| > 10 { return 0, false; }
    n := 0;
    for i := 0 to |v|
      invariant AllDigits(v[..i])
      invariant n as int == DigitsValue(v[..i])
      invariant 0 <= n <= MAX_LENGTH as LongLong
    {
      if v[i] < '0' || v[i] > '9' { return 0, false; }
      assert v[..i + 1][..i] == v[..i];
      n := n * 10 + (v[i] as int - '0' as int) as LongLong;
      assert n <= 10 * MAX_LENGTH as LongLong + 9;
      if n > MAX_LENGTH as LongLong {
        if AllDigits(v) { PrefixValue(v, i + 1); }
        return 0, false;
      }
    }
    assert v[..|v|] == v;
    return n, true;
  }

  /** Reading a printed length gives the length back, up to the 64 MiB limit and no further. */
  lemma ContentLengthOfDecimal(n: nat)
    ensures ContentLength(Decimal(n)) == if n <= 67108864 then Some(n) else None
  {
    ValueOfDecimal(n);
    if n <= MAX_LENGTH {
      assert Power10(8) == 100_000_000;
      DecimalLength(n, 8);
    }
  }

  ghost predicate Zeros(s: string) {
    forall i :: 0 <= i < |s| ==> s[i] == '0'
  }

  lemma {:induction false} ZerosAddNothing(zeros: string, s: string)
    requires Zeros(zeros) && AllDigits(s)
    ensures AllDigits(zeros + s) && DigitsValue(zeros + s) == DigitsValue(s)
  {
    if s == "" {
      if zeros == "" {
        assert zeros + s == "";
      } else {
        assert (zeros + s)[..|zeros + s| - 1] == zeros[..|zeros| - 1] + "";
        ZerosAddNothing(zeros[..|zeros| - 1], "");
      }
    } else {
      assert (zeros + s)[..|zeros + s| - 1] == zeros + s[..|s| - 1];
      ZerosAddNothing(zeros, s[..|s| - 1]);
    }
  }

  /** Digits are the decimal form of their value behind zeros. */
  lemma {:induction false} DigitsAreDecimal(s: string) returns (zeros: string)
    requires AllDigits(s) && s != ""
    ensures Zeros(zeros) && s == zeros + Decimal(DigitsValue(s))
  {
    var front, d := s[..|s| - 1], s[|s| - 1] as int - '0' as int;
    assert s == front + [DigitChar(d)];
    if front == "" {
      zeros := "";
      assert DigitsValue(front) == 0;
    } else {
      zeros := DigitsAreDecimal(front);
      if DigitsValue(front) == 0 {
        zeros := zeros + "0";
        assert Decimal(0) == "0";
      } else {
        assert Decimal(DigitsValue(s)) == Decimal(DigitsValue(front)) + [DigitChar(d)];
        Assoc(zeros, Decimal(DigitsValue(front)), [DigitChar(d)]);
      }
    }
  }

  /** The reader takes exactly the decimal forms of the numbers up to 64 MiB, with zeros in front as long as
      ten characters are not exceeded, and takes them for those numbers. */
  lemma ContentLengthIff(v: string, n: nat)
    ensures ContentLength(v) == Some(n) <==>
            |v| <= 10 && n <= 67108864 && exists zeros :: Zeros(zeros) && v == zeros + Decimal(n)
  {
    if ContentLength(v) == Some(n) {
      var zeros := DigitsAreDecimal(v);
    }
    forall zeros | |v| <= 10 && n <= 67108864 && Zeros(zeros) && v == zeros + Decimal(n)
      ensures ContentLength(v) == Some(n)
    {
      ZerosAddNothing(zeros, Decimal(n));
      ValueOfDecimal(n);
    }
  }

  // -------------------------------------------------------------------- stoi

  const INT_MAX := 0x7fff_ffff

  function SkipSpace(s: string): (r: string)
    ensures |r| <= |s|
  {
    if s != "" && IsSpace(s[0]) then SkipSpace(s[1..]) else s
  }

  /** The digits at the front of `s`. */
  function DigitRun(s: string): (r: string)
    ensures AllDigits(r) && r <= s
    ensures |r| < |s| ==> !IsDigit(s[|r|])
  {
    if s != "" && IsDigit(s[0]) then
      assert s == [s[0]] + s[1..];
      [s[0]] + DigitRun(s[1..])
    else ""
  }

  /** `std::stoi`: white space, a sign, digits, then anything; None where it throws. */
  function Stoi(s: string): Option<int> {
    var t := SkipSpace(s);
    var negative := t != "" && t[0] == '-';
    var digits := DigitRun(if t != "" && (t[0] == '-' || t[0] == '+') then t[1..] else t);
    if digits == "" then None
    else
      var magnitude: int := DigitsValue(digits);
      var v := if negative then -magnitude else magnitude;
      if -INT_MAX - 1 <= v <= INT_MAX then Some(v) else None
  }

  lemma {:induction false} DigitRunAll(s: string, rest: string)
    requires AllDigits(s) && (rest == "" || !IsDigit(rest[0]))
    ensures DigitRun(s + rest) == s
  {
    if s == "" {
      assert s + rest == rest;
    } else {
      assert (s + rest)[1..] == s[1..] + rest;
      DigitRunAll(s[1..], rest);
      assert s == [s[0]] + s[1..];
    }
  }

  lemma StoiOfDecimal(n: nat)
    requires n <= INT_MAX
    ensures Stoi(Decimal(n)) == Some(n)
  {
    var s := Decimal(n);
    ValueOfDecimal(n);
    assert IsDigit(s[0]);
    assert s + "" == s;
    DigitRunAll(s, "");
  }

  lemma {:induction false} SkipSpaceIs(space: string, s: string)
    requires Gap(space) && (s == "" || !IsSpace(s[0]))
    ensures SkipSpace(space + s) == s
  {
    if space == "" {
      assert space + s == s;
    } else {
      assert (space + s)[1..] == space[1..] + s;
      SkipSpaceIs(space[1..], s);
    }
  }

  /** White space, a sign or none, digits, and whatever is not a digit after them: the signed value, if it
      fits 32 bits; without a digit, nothing. */
  lemma StoiIs(space: string, sign: string, digits: string, rest: string)
    requires Gap(space) && sign in {"", "+", "-"} && AllDigits(digits) && (rest == "" || !IsDigit(rest[0]))
    requires digits == "" && sign == "" ==> rest == "" || (!IsSpace(rest[0]) && rest[0] != '+' && rest[0] != '-')
    ensures Stoi(space + (sign + (digits + rest))) ==
            if digits == "" then None
            else
              var v := if sign == "-" then -(DigitsValue(digits) as int) else DigitsValue(digits);
              if -2147483648 <= v <= 2147483647 then Some(v) else None
  {
    hide DigitsValue, SkipSpace, DigitRun, Gap;
    var t := sign + (digits + rest);
    DigitRunAll(digits, rest);
    SkipSpaceIs(space, t);
    if sign == "" {
      assert t == digits + rest;
    } else {
      assert t[1..] == digits + rest;
    }
  }
}
