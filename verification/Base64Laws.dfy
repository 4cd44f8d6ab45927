/** What the codec promises: round trips, the exact language it accepts, and what it forgets. */
module Base64Laws {
  import opened Wrappers
  import opened Text
  import opened Base64

  // ------------------------------------------------------- bits of one group

  lemma UngroupRegroup(x: Byte, y: Byte, z: Byte)
    ensures var q := Regroup(x, y, z); Ungroup(q[0], q[1], q[2], q[3]) == [x, y, z]
  {
  }

  lemma RegroupUngroup(q0: int, q1: int, q2: int, q3: int)
    requires 0 <= q0 < 64 && 0 <= q1 < 64 && 0 <= q2 < 64 && 0 <= q3 < 64
    ensures var o := Ungroup(q0, q1, q2, q3); Regroup(o[0], o[1], o[2]) == [q0, q1, q2, q3]
  {
    HighSextets(q0, q1);
    MiddleSextets(q1, q2);
    LowSextets(q2, q3);
  }

  lemma HighSextets(q0: int, q1: int)
    requires 0 <= q0 < 64 && 0 <= q1 < 64
    ensures var x := q0 * 4 + q1 / 16; x / 4 == q0 && x % 4 == q1 / 16
  {
  }

  lemma MiddleSextets(q1: int, q2: int)
    requires 0 <= q1 < 64 && 0 <= q2 < 64
    ensures var y := q1 % 16 * 16 + q2 / 4; y / 16 == q1 % 16 && y % 16 == q2 / 4
    ensures q1 / 16 * 16 + q1 % 16 == q1
  {
  }

  lemma LowSextets(q2: int, q3: int)
    requires 0 <= q2 < 64 && 0 <= q3 < 64
    ensures var z := q2 % 4 * 64 + q3; z / 64 == q2 % 4 && z % 64 == q3
    ensures q2 / 4 * 4 + q2 % 4 == q2
  {
  }

  // ------------------------------------------------------- decode after encode

  lemma {:induction false} DecodeSymbols(a: Alphabet, x: Bytes)
    ensures DecodeBody(Symbols(a, x)) == x
  {
    if |x| >= 3 {
      UngroupRegroup(x[0], x[1], x[2]);
      var s := Symbols(a, x);
      assert s[4..] == Symbols(a, x[3..]);
      DecodeSymbols(a, x[3..]);
    } else if |x| == 2 {
      UngroupRegroup(x[0], x[1], 0);
    } else if |x| == 1 {
      UngroupRegroup(x[0], 0, 0);
    }
  }

  lemma StripOneFill(fill: string, t: string, count: nat)
    requires |fill| > 0 && count <= 2 && t != ""
    ensures StripFill(fill, t + fill, count) == if count == 2 then None else StripFill(fill, t, count + 1)
  {
    var s := t + fill;
    assert s[|s| - |fill|..] == fill;
    assert s[..|s| - |fill|] == t;
  }

  lemma StripNoFill(a: Alphabet, body: string, count: nat)
    requires InAlphabet(a, body) && count <= 2
    ensures StripFill(a.fill, body, count) == Some((body, count))
  {
    hide Rank;
    if |body| > |a.fill| {
      SymbolOfRank(a, body[|body| - |a.fill|]);
      assert body[|body| - |a.fill|..][0] != a.fill[0];
    }
  }

  /** Taking fills off text over the alphabet finds exactly the fills that were put on. */
  lemma {:induction false} StripFillExact(a: Alphabet, body: string, k: nat, count: nat)
    requires InAlphabet(a, body) && count <= 2
    requires body != "" || k == 0
    ensures StripFill(a.fill, body + Repeat(a.fill, k), count) ==
            if count + k <= 2 then Some((body, count + k)) else None
    decreases k
  {
    hide StripFill, Rank;
    if k == 0 {
      assert body + Repeat(a.fill, k) == body;
      StripNoFill(a, body, count);
    } else {
      var t := body + Repeat(a.fill, k - 1);
      assert body + Repeat(a.fill, k) == t + a.fill;
      StripOneFill(a.fill, t, count);
      if count < 2 {
        StripFillExact(a, body, k - 1, count + 1);
      }
    }
  }

  /** For every byte string and both alphabets, decoding undoes encoding. */
  lemma DecodeEncode(a: Alphabet, x: Bytes)
    ensures Decode(a, Encode(a, x)) == Ok(x)
  {
    hide Symbols, DecodeBody, StripFill, Rank, Repeat, Missing, InAlphabet;
    SymbolsLength(a, x);
    var body := Symbols(a, x);
    NeverThreeMissing(|x|);
    StripFillExact(a, body, Missing(|body|), 0);
    DecodeSymbols(a, x);
  }

  /** No number of octets leaves three fills to be put on, and none needs any for no symbols. */
  lemma NeverThreeMissing(n: nat)
    ensures Missing(n / 3 * 4 + (if n % 3 == 0 then 0 else n % 3 + 1)) <= 2
    ensures Missing(0) == 0
  {
    assert n / 3 * 4 % 4 == 0;
  }

  // ------------------------------------------------------------ trim and pad

  lemma TrimEncode(a: Alphabet, x: Bytes)
    ensures TrimFill(a, Encode(a, x)) == Symbols(a, x)
  {
    hide Symbols, Rank;
    SymbolsLength(a, x);
    TwoFills(a);
    var body, s := Symbols(a, x), Encode(a, x);
    forall k: int | 0 <= k < |body| ensures !MatchAt(s, a.fill, k) {
      SymbolOfRank(a, body[k]);
      assert s[k] == body[k];
      if k + |a.fill| <= |s| { assert s[k..k + |a.fill|][0] == s[k]; }
    }
    if Missing(|body|) == 0 {
      assert s == body;
      assert forall k: int | k >= |body| :: !MatchAt(s, a.fill, k);
    } else {
      assert s[|body|..|body| + |a.fill|] == a.fill;
      FindIs(s, a.fill, 0, |body|);
      assert s[..|body|] == body;
    }
  }

  /** The unpadded form that tokens carry is padded back to the encoding and decodes. */
  lemma PadTrimEncode(a: Alphabet, x: Bytes)
    ensures Pad(a, TrimFill(a, Encode(a, x))) == Encode(a, x)
    ensures Decode(a, Pad(a, TrimFill(a, Encode(a, x)))) == Ok(x)
  {
    TrimEncode(a, x);
    DecodeEncode(a, x);
  }

  // ------------------------------------------------- the language of decode

  /** `s` is symbols over the alphabet followed by k fills, four to the quad. */
  ghost predicate Wellformed(a: Alphabet, s: string, body: string, k: nat) {
    k <= 2 && InAlphabet(a, body) && (|body| + k) % 4 == 0 && s == body + Repeat(a.fill, k)
  }

  lemma StripFillStep(fill: string, s: string, count: nat)
    requires |fill| > 0 && count <= 2
    ensures StripFill(fill, s, count) ==
            if |s| > |fill| && s[|s| - |fill|..] == fill
            then if count == 2 then None else StripFill(fill, s[..|s| - |fill|], count + 1)
            else Some((s, count))
  {
  }

  lemma {:induction false} StripFillSplits(fill: string, s: string, count: nat)
    requires |fill| > 0 && count <= 2
    requires StripFill(fill, s, count).Some?
    ensures var (body, k) := StripFill(fill, s, count).value; s == body + Repeat(fill, k - count)
    decreases |s|
  {
    hide StripFill;
    StripFillStep(fill, s, count);
    if |s| > |fill| && s[|s| - |fill|..] == fill {
      var t := s[..|s| - |fill|];
      assert s == t + fill;
      StripFillSplits(fill, t, count + 1);
      var (body, k) := StripFill(fill, t, count + 1).value;
      assert Repeat(fill, k - count) == Repeat(fill, k - count - 1) + fill;
    } else {
      assert s == s + Repeat(fill, 0);
    }
  }

  lemma DecodeOfWellformed(a: Alphabet, s: string, body: string, k: nat)
    requires Wellformed(a, s, body, k)
    ensures Decode(a, s) == Ok(DecodeBody(body))
    ensures k == Missing(|body|)
  {
    hide DecodeBody, StripFill, Rank, Repeat, InAlphabet;
    StripFillExact(a, body, k, 0);
    NoFillForNothing(k);
  }

  lemma NoFillForNothing(k: nat)
    ensures k <= 2 && k % 4 == 0 ==> k == 0
  {
  }

  /** Decode accepts exactly the well-formed texts; everything else is one of its three errors. */
  lemma DecodeAccepts(a: Alphabet, s: string)
    ensures Decode(a, s).Ok? <==> exists body, k :: Wellformed(a, s, body, k)
  {
    if Decode(a, s).Ok? {
      var (body, k) := StripFill(a.fill, s, 0).value;
      StripFillSplits(a.fill, s, 0);
      assert Wellformed(a, s, body, k);
    }
    forall body, k | Wellformed(a, s, body, k) ensures Decode(a, s).Ok? {
      DecodeOfWellformed(a, s, body, k);
    }
  }

  /** A text that cannot give up another fill: none at its end, or nothing would be left. */
  ghost predicate Stripped(a: Alphabet, body: string) {
    |body| <= |a.fill| || body[|body| - |a.fill|..] != a.fill
  }

  /** What decoding reports, for text in front of its fills: a third fill first, then a size that is not four
      to the quad, then a character outside the alphabet. */
  lemma DecodeReports(a: Alphabet, body: string, k: nat)
    requires k <= 3 && (k > 0 ==> body != "") && (k == 3 || Stripped(a, body))
    ensures Decode(a, body + Repeat(a.fill, k)) ==
            if k == 3 then Err(TooMuchFill)
            else if (|body| + k) % 4 != 0 then Err(IncorrectSize)
            else if !InAlphabet(a, body) then Err(NotInAlphabet)
            else Ok(DecodeBody(body))
  {
    hide DecodeBody, InAlphabet, Rank, StripFill, Repeat;
    if k == 3 { ThirdFill(a, body, 3, 0); } else { FewFills(a, body, k, 0); }
  }

  lemma {:induction false} FewFills(a: Alphabet, body: string, k: nat, count: nat)
    requires count + k <= 2 && (k > 0 ==> body != "") && Stripped(a, body)
    ensures StripFill(a.fill, body + Repeat(a.fill, k), count) == Some((body, count + k))
    decreases k
  {
    hide StripFill, Rank;
    if k == 0 {
      assert body + Repeat(a.fill, k) == body;
      StripFillStep(a.fill, body, count);
    } else {
      var t := body + Repeat(a.fill, k - 1);
      assert body + Repeat(a.fill, k) == t + a.fill;
      StripOneFill(a.fill, t, count);
      FewFills(a, body, k - 1, count + 1);
    }
  }

  lemma {:induction false} ThirdFill(a: Alphabet, body: string, k: nat, count: nat)
    requires count + k == 3 && k > 0 && body != ""
    ensures StripFill(a.fill, body + Repeat(a.fill, k), count) == None
    decreases k
  {
    hide StripFill, Rank;
    var t := body + Repeat(a.fill, k - 1);
    assert body + Repeat(a.fill, k) == t + a.fill;
    StripOneFill(a.fill, t, count);
    if k == 1 {
    } else {
      ThirdFill(a, body, k - 1, count + 1);
    }
  }

  /** A symbol left over gets three fills, and is reported for them. */
  lemma LeftoverSymbol(a: Alphabet, body: string)
    requires |body| % 4 == 1
    ensures Decode(a, Pad(a, body)) == Err(TooMuchFill)
  {
    hide Decode, Repeat, Rank;
    DecodeReports(a, body, 3);
  }

  /** The alphabet of the tokens, symbol by symbol, and its fill (table 2 of RFC 4648; jwt-cpp writes the
      fill as a URL would). */
  lemma TokenAlphabet()
    ensures BASE64URL.data == "ABCDEFGHIJKLMNOPQRSTUVWXYZ" + "abcdefghijklmnopqrstuvwxyz" + "0123456789" + "-_"
    ensures BASE64URL.fill == "%3d"
  {
  }

  /** Unpadded text over the alphabet decodes after padding unless one symbol is left over. */
  lemma PaddedDecodes(a: Alphabet, body: string)
    requires InAlphabet(a, body)
    ensures Decode(a, Pad(a, body)).Ok? <==> |body| % 4 != 1
    ensures |body| % 4 != 1 ==> Decode(a, Pad(a, body)) == Ok(DecodeBody(body))
  {
    hide DecodeBody, StripFill, Rank;
    StripFillExact(a, body, Missing(|body|), 0);
  }

  // ------------------------------------------------------ what decode forgets

  /** The last symbol with the bits that no octet holds set to zero: 4 bits before two fills, 2 before one. */
  function Canonical(a: Alphabet, body: string): string
    requires InAlphabet(a, body)
  {
    if |body| % 4 == 2 then body[..|body| - 1] + [a.data[Rank(body[|body| - 1]) / 16 * 16]]
    else if |body| % 4 == 3 then body[..|body| - 1] + [a.data[Rank(body[|body| - 1]) / 4 * 4]]
    else body
  }

  lemma SymbolsDecodeStep(a: Alphabet, body: string)
    requires InAlphabet(a, body) && |body| >= 4
    ensures Symbols(a, DecodeBody(body)) == body[..4] + Symbols(a, DecodeBody(body[4..]))
  {
    hide Rank, Quad, Octets;
    QuadDecodes(a, body[0], body[1], body[2], body[3]);
    var o := DecodeBody(body);
    assert o[3..] == DecodeBody(body[4..]);
  }

  lemma CanonicalStep(a: Alphabet, body: string)
    requires InAlphabet(a, body) && |body| >= 4
    ensures InAlphabet(a, body[4..])
    ensures Canonical(a, body) == body[..4] + Canonical(a, body[4..])
  {
    hide Rank;
    InAlphabetSplit(a, body, 4);
    var rest := body[4..];
    assert body == body[..4] + rest;
    assert |rest| % 4 == |body| % 4;
    if |rest| > 0 {
      assert rest[|rest| - 1] == body[|body| - 1];
      assert body[..|body| - 1] == body[..4] + rest[..|rest| - 1];
    }
  }

  lemma {:induction false} SymbolsDecode(a: Alphabet, body: string)
    requires InAlphabet(a, body) && |body| % 4 != 1
    ensures Symbols(a, DecodeBody(body)) == Canonical(a, body)
  {
    hide Rank, Symbols, DecodeBody, Canonical, InAlphabet;
    if |body| >= 4 {
      CanonicalStep(a, body);
      SymbolsDecode(a, body[4..]);
      SymbolsDecodeStep(a, body);
    } else if |body| == 3 {
      TailOfThree(a, body);
    } else if |body| == 2 {
      TailOfTwo(a, body);
    } else {
      NothingDecodes(a);
      NothingCanonical(a);
    }
  }

  lemma NothingCanonical(a: Alphabet)
    ensures InAlphabet(a, "") && Canonical(a, "") == ""
  {
  }

  lemma NothingDecodes(a: Alphabet)
    ensures Symbols(a, DecodeBody("")) == ""
  {
  }

  lemma QuadDecodes(a: Alphabet, c0: char, c1: char, c2: char, c3: char)
    requires c0 in a.data && c1 in a.data && c2 in a.data && c3 in a.data
    ensures var o := Octets(c0, c1, c2, c3); Quad(a, o[0], o[1], o[2]) == [c0, c1, c2, c3]
  {
    SymbolOfRank(a, c0);
    SymbolOfRank(a, c1);
    SymbolOfRank(a, c2);
    SymbolOfRank(a, c3);
    RegroupUngroup(Rank(c0), Rank(c1), Rank(c2), Rank(c3));
  }

  lemma TailOfThree(a: Alphabet, body: string)
    requires InAlphabet(a, body) && |body| == 3
    ensures Symbols(a, DecodeBody(body)) == Canonical(a, body)
  {
    SymbolOfRank(a, body[0]);
    SymbolOfRank(a, body[1]);
    SymbolOfRank(a, body[2]);
    var o := DecodeBody(body);
    var g := Regroup(o[0], o[1], 0);
    assert g[0] == Rank(body[0]) && g[1] == Rank(body[1]) && g[2] == Rank(body[2]) / 4 * 4;
  }

  lemma TailOfTwo(a: Alphabet, body: string)
    requires InAlphabet(a, body) && |body| == 2
    ensures Symbols(a, DecodeBody(body)) == Canonical(a, body)
  {
    SymbolOfRank(a, body[0]);
    SymbolOfRank(a, body[1]);
    var o := DecodeBody(body);
    var g := Regroup(o[0], 0, 0);
    assert g[0] == Rank(body[0]) && g[1] == Rank(body[1]) / 16 * 16;
  }

  /** Re-encoding what a text decodes to gives the text with its unused bits cleared. */
  lemma EncodeDecode(a: Alphabet, s: string, body: string, k: nat)
    requires Wellformed(a, s, body, k)
    ensures Decode(a, s).Ok?
    ensures Encode(a, Decode(a, s).value) == Canonical(a, body) + Repeat(a.fill, k)
  {
    hide DecodeBody, Symbols, Canonical;
    DecodeOfWellformed(a, s, body, k);
    SymbolsDecode(a, body);
    CanonicalLength(a, body);
  }

  lemma CanonicalLength(a: Alphabet, body: string)
    requires InAlphabet(a, body)
    ensures |Canonical(a, body)| == |body|
  {
  }

  /** Two accepted texts decode alike exactly when they differ in unused bits only. */
  lemma DecodeAlike(a: Alphabet, s: string, body: string, k: nat, s': string, body': string, k': nat)
    requires Wellformed(a, s, body, k) && Wellformed(a, s', body', k')
    ensures Decode(a, s) == Decode(a, s') <==> Canonical(a, body) == Canonical(a, body')
  {
    hide DecodeBody, Symbols, Canonical;
    DecodeOfWellformed(a, s, body, k);
    DecodeOfWellformed(a, s', body', k');
    SymbolsDecode(a, body);
    SymbolsDecode(a, body');
    DecodeSymbols(a, DecodeBody(body));
    DecodeSymbols(a, DecodeBody(body'));
  }

  // --------------------------------------------- encoding as a change of radix

  /** `acc` followed by big-endian digits in radix 256. */
  function ValueOfBytes(acc: int, x: Bytes): int
    decreases |x|
  {
    if x == [] then acc else ValueOfBytes(acc * 256 + x[0], x[1..])
  }

  /** `acc` followed by big-endian digits in radix 64. */
  function ValueOfSymbols(acc: int, s: string): int
    decreases |s|
  {
    if s == "" then acc else ValueOfSymbols(acc * 64 + Rank(s[0]), s[1..])
  }

  /** A number shifted left by the bits the last sextet of `n` octets is short of: 0, 4 or 2. */
  function Shifted(v: int, n: nat): int {
    if n % 3 == 0 then v else if n % 3 == 1 then v * 16 else v * 4
  }

  lemma ShiftIgnoresTriples(v: int, n: nat)
    requires n >= 3
    ensures Shifted(v, n - 3) == Shifted(v, n)
  {
  }

  lemma ThreeBytesValue(acc: int, x: Bytes)
    requires |x| >= 3
    ensures ValueOfBytes(acc, x)
            == ValueOfBytes(acc * 0x100_0000 + (x[0] as int) * 0x1_0000 + (x[1] as int) * 0x100 + x[2], x[3..])
  {
    var y := x[1..];
    var z := y[1..];
    assert z[1..] == x[3..];
    assert ValueOfBytes(acc, x) == ValueOfBytes(acc * 256 + x[0], y);
    assert ValueOfBytes(acc * 256 + x[0], y) == ValueOfBytes((acc * 256 + x[0]) * 256 + y[0], z);
  }

  lemma FourSymbolsValue(acc: int, q: string, rest: string)
    requires |q| == 4
    ensures ValueOfSymbols(acc, q + rest) ==
            ValueOfSymbols(acc * 0x100_0000 + Rank(q[0]) * 0x4_0000 + Rank(q[1]) * 0x1000 + Rank(q[2]) * 0x40
                           + Rank(q[3]), rest)
  {
    hide Rank;
    var s := q + rest;
    var s1 := s[1..];
    var s2 := s1[1..];
    var s3 := s2[1..];
    assert s3[1..] == rest;
    var acc1 := acc * 64 + Rank(s[0]);
    var acc2 := acc1 * 64 + Rank(s1[0]);
    assert ValueOfSymbols(acc, s) == ValueOfSymbols(acc1, s1) == ValueOfSymbols(acc2, s2);
    var acc3 := acc2 * 64 + Rank(s2[0]);
    assert ValueOfSymbols(acc2, s2) == ValueOfSymbols(acc3, s3) == ValueOfSymbols(acc3 * 64 + Rank(s3[0]), rest);
  }

  lemma QuadValue(a: Alphabet, x: Byte, y: Byte, z: Byte)
    ensures var q := Quad(a, x, y, z);
            Rank(q[0]) * 0x4_0000 + Rank(q[1]) * 0x1000 + Rank(q[2]) * 0x40 + Rank(q[3]) == x * 0x1_0000 + y * 0x100 + z
  {
    hide Rank;
  }

  /** RFC 4648, section 4: the symbols are the radix-64 digits of the input read as one
      big-endian number, shifted left by the 0, 4 or 2 bits the last sextet is short of. */
  lemma {:induction false} SymbolsAreTheNumber(a: Alphabet, acc: int, x: Bytes)
    ensures ValueOfSymbols(acc, Symbols(a, x)) == Shifted(ValueOfBytes(acc, x), |x|)
    decreases |x|
  {
    hide Rank, Regroup, Quad, ValueOfSymbols, ValueOfBytes, Shifted;
    if |x| >= 3 {
      ShiftIgnoresTriples(ValueOfBytes(acc, x), |x|);
      var acc' := acc * 0x100_0000 + (x[0] as int) * 0x1_0000 + (x[1] as int) * 0x100 + x[2];
      SymbolsAreTheNumber(a, acc', x[3..]);
      ThreeBytesValue(acc, x);
      QuadValue(a, x[0], x[1], x[2]);
      FourSymbolsValue(acc, Quad(a, x[0], x[1], x[2]), Symbols(a, x[3..]));
    } else {
      TailValue(a, acc, x);
    }
  }

  lemma ThreeSymbolsValue(acc: int, s: string)
    requires |s| == 3
    ensures ValueOfSymbols(acc, s) == ((acc * 64 + Rank(s[0])) * 64 + Rank(s[1])) * 64 + Rank(s[2])
  {
    hide Rank;
    var s1 := s[1..];
    var s2 := s1[1..];
    assert s2 == [s[2]] && s2[1..] == "";
    assert ValueOfSymbols((acc * 64 + Rank(s[0])) * 64 + Rank(s[1]), s2)
           == ((acc * 64 + Rank(s[0])) * 64 + Rank(s[1])) * 64 + Rank(s[2]);
    assert ValueOfSymbols(acc * 64 + Rank(s[0]), s1) == ValueOfSymbols((acc * 64 + Rank(s[0])) * 64 + Rank(s1[0]), s2);
  }

  lemma TwoSymbolsValue(acc: int, s: string)
    requires |s| == 2
    ensures ValueOfSymbols(acc, s) == (acc * 64 + Rank(s[0])) * 64 + Rank(s[1])
  {
    hide Rank;
    var s1 := s[1..];
    assert s1 == [s[1]] && s1[1..] == "";
    assert ValueOfSymbols(acc * 64 + Rank(s[0]), s1) == (acc * 64 + Rank(s[0])) * 64 + Rank(s[1]);
  }

  lemma TwoBytesValue(acc: int, x: Bytes)
    requires |x| == 2
    ensures ValueOfBytes(acc, x) == (acc * 256 + x[0]) * 256 + x[1]
  {
    var x1 := x[1..];
    assert x1 == [x[1]] && x1[1..] == [];
    assert ValueOfBytes(acc * 256 + x[0], x1) == (acc * 256 + x[0]) * 256 + x[1];
  }

  lemma OneByteValue(acc: int, x: Bytes)
    requires |x| == 1
    ensures ValueOfBytes(acc, x) == acc * 256 + x[0]
  {
    assert x[1..] == [];
  }

  lemma TailArithmetic(acc: int, x: int, y: int)
    requires 0 <= x < 256 && 0 <= y < 256
    ensures ((acc * 64 + x / 4) * 64 + (x % 4 * 16 + y / 16)) * 64 + y % 16 * 4 == ((acc * 256 + x) * 256 + y) * 4
    ensures (acc * 64 + x / 4) * 64 + x % 4 * 16 == (acc * 256 + x) * 16
  {
  }

  lemma TailValue(a: Alphabet, acc: int, x: Bytes)
    requires |x| < 3
    ensures ValueOfSymbols(acc, Symbols(a, x)) == Shifted(ValueOfBytes(acc, x), |x|)
  {
    hide Rank, ValueOfSymbols, ValueOfBytes;
    if |x| == 2 {
      ThreeSymbolsValue(acc, Symbols(a, x));
      TwoBytesValue(acc, x);
      TailArithmetic(acc, x[0], x[1]);
    } else if |x| == 1 {
      TwoSymbolsValue(acc, Symbols(a, x));
      OneByteValue(acc, x);
      TailArithmetic(acc, x[0], 0);
    } else {
      NoValue(a, acc);
    }
  }

  lemma NoValue(a: Alphabet, acc: int)
    ensures ValueOfSymbols(acc, Symbols(a, [])) == ValueOfBytes(acc, [])
  {
  }
}
