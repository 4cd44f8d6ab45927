/**
 The two recv loops of HandleClient.cpp. A script lists what successive recv calls return;
 its end is the peer closing, a timeout or an error. Quantifying over scripts covers every
 way the network can cut a client's bytes.
 */
module Reading {
  import opened Wrappers
  import opened Text

  const MAX_HEADER_BYTES := 16384
  const RECV_BUFFER := 4096
  /** The most the head loop can buffer: one byte under the cap, then a full chunk. */
  const MAX_BUFFERED := 20479

  type Script = seq<string>

  predicate Chunks(script: Script) {
    forall i :: 0 <= i < |script| ==> 1 <= |script[i]| <= RECV_BUFFER
  }

  function Flat(script: Script): string {
    if script == [] then "" else script[0] + Flat(script[1..])
  }

  datatype HeadOutcome =
    | HeadDone(head: string, rest: Script)
    | HeadDisconnected
    | HeadTooLarge(rest: Script)

  function ReadHead(head: string, script: Script): HeadOutcome
    decreases |script|
  {
    if |head| >= MAX_HEADER_BYTES then HeadTooLarge(script)
    else if script == [] then HeadDisconnected
    else
      var more := head + script[0];
      if Find(more, BLANK_LINE, 0).Some? then HeadDone(more, script[1..])
      else ReadHead(more, script[1..])
  }

  datatype BodyOutcome =
    | BodyDone(body: string, rest: Script)
    | BodyDisconnected
    | BodyTooLarge(rest: Script)

  function ReadBody(body: string, script: Script, length: nat, maxBody: int): BodyOutcome
    decreases |script|
  {
    if |body| >= length then BodyDone(body[..length], script)
    else if script == [] then BodyDisconnected
    else
      var more := body + script[0];
      if |more| > maxBody then BodyTooLarge(script[1..])
      else ReadBody(more, script[1..], length, maxBody)
  }

  // ------------------------------------------------------------------ chunks

  lemma FlatFirst(script: Script)
    requires script != []
    ensures Flat(script) == script[0] + Flat(script[1..])
    ensures Chunks(script) ==> Chunks(script[1..]) && 1 <= |script[0]| <= RECV_BUFFER
  {
  }

  lemma {:induction false} FlatAppend(a: Script, b: Script)
    ensures Flat(a + b) == Flat(a) + Flat(b)
    ensures Chunks(a) && Chunks(b) ==> Chunks(a + b)
  {
    if a == [] {
      assert a + b == b;
    } else {
      assert (a + b)[1..] == a[1..] + b;
      FlatAppend(a[1..], b);
    }
  }

  /** Some way of cutting a text into chunks. */
  function Chop(s: string): (script: Script)
    ensures Chunks(script)
  {
    if s == "" then [] else if |s| <= RECV_BUFFER then [s] else [s[..RECV_BUFFER]] + Chop(s[RECV_BUFFER..])
  }

  lemma {:induction false} FlatChop(s: string)
    ensures Flat(Chop(s)) == s
  {
    if |s| <= RECV_BUFFER {
    } else {
      FlatChop(s[RECV_BUFFER..]);
      assert Chop(s)[1..] == Chop(s[RECV_BUFFER..]);
    }
  }

  // -------------------------------------------------------------- head found

  /** No blank line yet in `head`, which is a prefix of a stream with its first blank line at `e`. */
  lemma NotYetIffShort(stream: string, e: nat, n: nat)
    requires Find(stream, BLANK_LINE, 0) == Some(e) && n <= |stream|
    ensures Find(stream[..n], BLANK_LINE, 0) == if e + 4 <= n then Some(e) else None
  {
    FindPrefix(stream, BLANK_LINE, n);
  }

  lemma {:induction false} HeadFound(head: string, script: Script, e: nat)
    requires Chunks(script) && Find(head + Flat(script), BLANK_LINE, 0) == Some(e)
    requires |head| < e + 4 <= MAX_HEADER_BYTES
    ensures var r := ReadHead(head, script);
            && r.HeadDone? && |r.head| <= MAX_BUFFERED && Chunks(r.rest)
            && r.head + Flat(r.rest) == head + Flat(script)
            && Find(r.head, BLANK_LINE, 0) == Some(e)
    decreases |script|
  {
    hide Find, MatchAt;
    var stream := head + Flat(script);
    assert e + 4 <= |stream| by { FindEnds(stream, e); }
    if script == [] {
    } else {
      FlatFirst(script);
      var more := head + script[0];
      assert stream == more + Flat(script[1..]);
      assert stream[..|more|] == more;
      NotYetIffShort(stream, e, |more|);
      if |more| < e + 4 {
        HeadFound(more, script[1..], e);
      }
    }
  }

  lemma FindEnds(s: string, e: nat)
    requires Find(s, BLANK_LINE, 0) == Some(e)
    ensures e + 4 <= |s|
  {
  }

  /** If the blank line ends within the first 16384 bytes, the same head is found however the
      stream is cut, no byte is lost, and at most 20479 bytes are buffered. */
  lemma SameHeadForAllChunkings(script: Script, e: nat)
    requires Chunks(script) && Find(Flat(script), BLANK_LINE, 0) == Some(e) && e + 4 <= 16384
    ensures var r := ReadHead("", script);
            && r.HeadDone? && |r.head| <= 20479 && Chunks(r.rest)
            && r.head + Flat(r.rest) == Flat(script)
            && Find(r.head, BLANK_LINE, 0) == Some(e)
            && e + 4 <= |r.head|
            && r.head[..e] == Flat(script)[..e]
            && r.head[e + 4..] + Flat(r.rest) == Flat(script)[e + 4..]
  {
    hide ReadHead, Find;
    assert "" + Flat(script) == Flat(script);
    HeadFound("", script, e);
    var r := ReadHead("", script);
    FindEnds(r.head, e);
  }

  /** A head that is found is the front of the stream up to a chunk's end, whatever the cut. */
  lemma {:induction false} HeadDoneFromStream(head: string, script: Script)
    requires Find(head, BLANK_LINE, 0).None?
    ensures var r := ReadHead(head, script);
            r.HeadDone? ==>
              && r.head + Flat(r.rest) == head + Flat(script)
              && Find(r.head, BLANK_LINE, 0).Some?
              && Find(head + Flat(script), BLANK_LINE, 0) == Find(r.head, BLANK_LINE, 0)
              && (Chunks(script) ==> |r.head| <= MAX_BUFFERED)
    decreases |script|
  {
    hide Find, MatchAt;
    if |head| >= MAX_HEADER_BYTES || script == [] {
    } else {
      FlatFirst(script);
      var more := head + script[0];
      assert head + Flat(script) == more + Flat(script[1..]);
      if Find(more, BLANK_LINE, 0).Some? {
        assert (head + Flat(script))[..|more|] == more;
        FindPrefix(head + Flat(script), BLANK_LINE, |more|);
      } else {
        HeadDoneFromStream(more, script[1..]);
      }
    }
  }

  // ---------------------------------------------------- heads that are refused

  /** No blank line ends within the first `n` characters. */
  ghost predicate NoBlankWithin(stream: string, n: nat) {
    Find(stream, BLANK_LINE, 0).None? || Find(stream, BLANK_LINE, 0).value + 4 > n
  }

  lemma {:induction false} HeadRefused(head: string, script: Script)
    requires Chunks(script) && NoBlankWithin(head + Flat(script), MAX_BUFFERED) && |head| <= MAX_BUFFERED
    ensures var r := ReadHead(head, script);
            if |head + Flat(script)| >= MAX_HEADER_BYTES then r.HeadTooLarge? else r.HeadDisconnected?
    decreases |script|
  {
    hide Find, MatchAt;
    if |head| >= MAX_HEADER_BYTES || script == [] {
    } else {
      var stream := head + Flat(script);
      FlatFirst(script);
      var more := head + script[0];
      assert stream == more + Flat(script[1..]);
      assert stream[..|more|] == more;
      FindPrefix(stream, BLANK_LINE, |more|);
      HeadRefused(more, script[1..]);
    }
  }

  /** Two cuts of one stream whose blank line ends between 16384 and 20479 bytes: four full chunks
      reach the cap without it, one byte less leaves room for a chunk that brings it. */
  function LateCut(stream: string): Script
    requires |stream| >= MAX_HEADER_BYTES
  {
    [stream[..4096]]
    + ([stream[4096..8192]] + ([stream[8192..12288]] + ([stream[12288..16384]] + Chop(stream[16384..]))))
  }

  function EarlyCut(stream: string): Script
    requires |stream| >= MAX_HEADER_BYTES
  {
    var last := if |stream| <= MAX_BUFFERED then |stream| else MAX_BUFFERED;
    [stream[..4095]] + ([stream[4095..8191]] + ([stream[8191..12287]] + ([stream[12287..16383]]
    + ([stream[16383..last]] + Chop(stream[last..])))))
  }

  lemma ReadHeadStep(head: string, chunk: string, rest: Script)
    requires |head| < MAX_HEADER_BYTES
    ensures ReadHead(head, [chunk] + rest) ==
            if Find(head + chunk, BLANK_LINE, 0).Some? then HeadDone(head + chunk, rest)
            else ReadHead(head + chunk, rest)
  {
    var script := [chunk] + rest;
    assert script[1..] == rest;
  }

  /** Reading on from position i to position j of a stream without a blank line up to j. */
  lemma ReadOn(stream: string, e: nat, i: nat, j: nat, rest: Script)
    requires Find(stream, BLANK_LINE, 0) == Some(e)
    requires i < j <= |stream| && i < MAX_HEADER_BYTES && j < e + 4
    ensures ReadHead(stream[..i], [stream[i..j]] + rest) == ReadHead(stream[..j], rest)
  {
    hide Find, ReadHead;
    ReadHeadStep(stream[..i], stream[i..j], rest);
    assert stream[..i] + stream[i..j] == stream[..j];
    NotYetIffShort(stream, e, j);
  }

  /** Chunks that end exactly with the blank line are read as the head. */
  lemma {:induction false} HeadExact(stream: string, e: nat, i: nat, rest: Script)
    requires Find(stream, BLANK_LINE, 0) == Some(e)
    requires i < e + 4 <= |stream| && e + 4 <= MAX_HEADER_BYTES
    ensures ReadHead(stream[..i], Chop(stream[i..e + 4]) + rest) == HeadDone(stream[..e + 4], rest)
    decreases e + 4 - i
  {
    hide Find, ReadHead;
    var s := stream[i..e + 4];
    if |s| <= RECV_BUFFER {
      ReadHeadStep(stream[..i], s, rest);
      assert stream[..i] + s == stream[..e + 4];
      NotYetIffShort(stream, e, e + 4);
    } else {
      var j := i + RECV_BUFFER;
      assert s[..RECV_BUFFER] == stream[i..j] && s[RECV_BUFFER..] == stream[j..e + 4];
      assert Chop(s) + rest == [stream[i..j]] + (Chop(stream[j..e + 4]) + rest);
      ReadOn(stream, e, i, j, Chop(stream[j..e + 4]) + rest);
      HeadExact(stream, e, j, rest);
    }
  }

  lemma CutsAreCuts(stream: string)
    requires |stream| >= MAX_HEADER_BYTES
    ensures Chunks(LateCut(stream)) && Flat(LateCut(stream)) == stream
    ensures Chunks(EarlyCut(stream)) && Flat(EarlyCut(stream)) == stream
  {
    LateCutFlat(stream);
    EarlyCutFlat(stream);
  }

  lemma OneMoreChunk(s: string, i: nat, j: nat, rest: Script)
    requires i < j <= |s| && j - i <= RECV_BUFFER
    requires Chunks(rest) && Flat(rest) == s[j..]
    ensures Chunks([s[i..j]] + rest) && Flat([s[i..j]] + rest) == s[i..]
  {
    assert ([s[i..j]] + rest)[1..] == rest;
    assert s[i..j] + s[j..] == s[i..];
  }

  lemma LateCutFlat(s: string)
    requires |s| >= MAX_HEADER_BYTES
    ensures Chunks(LateCut(s)) && Flat(LateCut(s)) == s
  {
    hide Flat, Chop;
    FlatChop(s[16384..]);
    OneMoreChunk(s, 12288, 16384, Chop(s[16384..]));
    OneMoreChunk(s, 8192, 12288, [s[12288..16384]] + Chop(s[16384..]));
    OneMoreChunk(s, 4096, 8192, [s[8192..12288]] + ([s[12288..16384]] + Chop(s[16384..])));
    assert s[..4096] == s[0..4096] && s[0..] == s;
    OneMoreChunk(s, 0, 4096, [s[4096..8192]] + ([s[8192..12288]] + ([s[12288..16384]] + Chop(s[16384..]))));
  }

  lemma EarlyCutFlat(s: string)
    requires |s| >= MAX_HEADER_BYTES
    ensures Chunks(EarlyCut(s)) && Flat(EarlyCut(s)) == s
  {
    hide Flat, Chop;
    var last := if |s| <= MAX_BUFFERED then |s| else MAX_BUFFERED;
    FlatChop(s[last..]);
    OneMoreChunk(s, 16383, last, Chop(s[last..]));
    var r4 := [s[16383..last]] + Chop(s[last..]);
    OneMoreChunk(s, 12287, 16383, r4);
    OneMoreChunk(s, 8191, 12287, [s[12287..16383]] + r4);
    OneMoreChunk(s, 4095, 8191, [s[8191..12287]] + ([s[12287..16383]] + r4));
    assert s[..4095] == s[0..4095] && s[0..] == s;
    OneMoreChunk(s, 0, 4095, [s[4095..8191]] + ([s[8191..12287]] + ([s[12287..16383]] + r4)));
  }

  lemma LateCutRefused(s: string, e: nat)
    requires Find(s, BLANK_LINE, 0) == Some(e) && e + 4 > MAX_HEADER_BYTES
    ensures |s| >= MAX_HEADER_BYTES && ReadHead("", LateCut(s)).HeadTooLarge?
  {
    hide Find, ReadHead, Chop;
    FindEnds(s, e);
    assert s[..0] == "" && s[0..4096] == s[..4096];
    ReadOn(s, e, 0, 4096, [s[4096..8192]] + ([s[8192..12288]] + ([s[12288..16384]] + Chop(s[16384..]))));
    ReadOn(s, e, 4096, 8192, [s[8192..12288]] + ([s[12288..16384]] + Chop(s[16384..])));
    ReadOn(s, e, 8192, 12288, [s[12288..16384]] + Chop(s[16384..]));
    ReadOn(s, e, 12288, 16384, Chop(s[16384..]));
    AtTheCap(s[..16384], Chop(s[16384..]));
  }

  lemma AtTheCap(head: string, rest: Script)
    requires |head| >= MAX_HEADER_BYTES
    ensures ReadHead(head, rest).HeadTooLarge?
  {
  }

  lemma EarlyCutFound(s: string, e: nat)
    requires Find(s, BLANK_LINE, 0) == Some(e) && MAX_HEADER_BYTES < e + 4 <= MAX_BUFFERED
    ensures |s| >= MAX_HEADER_BYTES && ReadHead("", EarlyCut(s)).HeadDone?
  {
    hide Find, ReadHead, Chop;
    FindEnds(s, e);
    var last := if |s| <= MAX_BUFFERED then |s| else MAX_BUFFERED;
    var r4 := [s[16383..last]] + Chop(s[last..]);
    assert s[..0] == "" && s[0..4095] == s[..4095];
    ReadOn(s, e, 0, 4095, [s[4095..8191]] + ([s[8191..12287]] + ([s[12287..16383]] + r4)));
    ReadOn(s, e, 4095, 8191, [s[8191..12287]] + ([s[12287..16383]] + r4));
    ReadOn(s, e, 8191, 12287, [s[12287..16383]] + r4);
    ReadOn(s, e, 12287, 16383, r4);
    ReadHeadStep(s[..16383], s[16383..last], Chop(s[last..]));
    assert s[..16383] + s[16383..last] == s[..last];
    NotYetIffShort(s, e, last);
  }

  /** `script` is a way the stream can arrive. */
  ghost predicate CutOf(script: Script, stream: string) {
    Chunks(script) && Flat(script) == stream
  }

  /** Exactly when the fate of a head does not depend on the cuts: unless its blank line
      ends after byte 16384 and not after byte 20479. */
  lemma HeadFateIndependentIff(stream: string)
    ensures var e := Find(stream, BLANK_LINE, 0);
            (forall a, b :: CutOf(a, stream) && CutOf(b, stream) ==>
               (ReadHead("", a).HeadDone? <==> ReadHead("", b).HeadDone?))
            <==> e.None? || e.value + 4 <= 16384 || e.value + 4 > 20479
  {
    hide Find, ReadHead, Flat, Chunks, Chop, LateCut, EarlyCut;
    var e := Find(stream, BLANK_LINE, 0);
    if e.Some? && MAX_HEADER_BYTES < e.value + 4 <= MAX_BUFFERED {
      LateCutRefused(stream, e.value);
      EarlyCutFound(stream, e.value);
      CutsAreCuts(stream);
      assert CutOf(LateCut(stream), stream) && CutOf(EarlyCut(stream), stream);
    } else {
      forall a | CutOf(a, stream)
        ensures ReadHead("", a).HeadDone? <==> e.Some? && e.value + 4 <= MAX_HEADER_BYTES
      {
        if e.Some? && e.value + 4 <= MAX_HEADER_BYTES {
          SameHeadForAllChunkings(a, e.value);
        } else {
          assert "" + Flat(a) == Flat(a);
          HeadRefused("", a);
        }
      }
    }
  }

  // -------------------------------------------------------------------- body

  lemma {:induction false} BodyWhole(body: string, script: Script, length: nat, maxBody: int)
    requires Chunks(script) && |body| < length <= |body + Flat(script)|
    requires |body + Flat(script)| <= maxBody || length + RECV_BUFFER - 1 <= maxBody
    ensures var r := ReadBody(body, script, length, maxBody);
            r.BodyDone? && r.body == (body + Flat(script))[..length]
    decreases |script|
  {
    if script == [] {
    } else {
      FlatFirst(script);
      var more := body + script[0];
      var all := body + Flat(script);
      assert all == more + Flat(script[1..]);
      if |more| < length {
        BodyWhole(more, script[1..], length, maxBody);
      } else {
        assert more[..length] == all[..length];
      }
    }
  }

  /** Too few bytes never make a body; if the length is within the maximum, the client is gone. */
  lemma {:induction false} BodyShort(body: string, script: Script, length: nat, maxBody: int)
    requires |body + Flat(script)| < length
    ensures !ReadBody(body, script, length, maxBody).BodyDone?
    ensures length <= maxBody ==> ReadBody(body, script, length, maxBody).BodyDisconnected?
    decreases |script|
  {
    if script == [] {
    } else {
      var more := body + script[0];
      assert body + Flat(script) == more + Flat(script[1..]);
      BodyShort(more, script[1..], length, maxBody);
    }
  }

  /** A body that is read is the declared number of bytes that come next, whatever the cut. */
  lemma {:induction false} BodyDoneFromStream(body: string, script: Script, length: nat, maxBody: int)
    ensures var r := ReadBody(body, script, length, maxBody);
            r.BodyDone? ==> length <= |body + Flat(script)| && r.body == (body + Flat(script))[..length]
    decreases |script|
  {
    if |body| >= length {
      assert (body + Flat(script))[..length] == body[..length];
    } else if script == [] {
    } else {
      var more := body + script[0];
      assert body + Flat(script) == more + Flat(script[1..]);
      BodyDoneFromStream(more, script[1..], length, maxBody);
    }
  }

  /** Chunks that end exactly where the body does are read as the body. */
  lemma {:induction false} BodyExact(body: string, first: Script, rest: Script, length: nat, maxBody: int)
    requires Chunks(first) && |body + Flat(first)| == length <= maxBody
    ensures ReadBody(body, first + rest, length, maxBody) == BodyDone(body + Flat(first), rest)
    decreases |first|
  {
    if first == [] {
      assert first + rest == rest && body + Flat(first) == body;
    } else {
      FlatFirst(first);
      var more := body + first[0];
      assert (first + rest)[1..] == first[1..] + rest;
      assert body + Flat(first) == more + Flat(first[1..]);
      BodyExact(more, first[1..], rest, length, maxBody);
    }
  }

  /** Chunks that leave the body short of its length are read on, or already too much. */
  lemma {:induction false} BodyReadOn(body: string, first: Script, rest: Script, length: nat, maxBody: int)
    requires |body + Flat(first)| < length
    ensures ReadBody(body, first + rest, length, maxBody).BodyTooLarge?
            || ReadBody(body, first + rest, length, maxBody) == ReadBody(body + Flat(first), rest, length, maxBody)
    decreases |first|
  {
    if first == [] {
      assert first + rest == rest && body + Flat(first) == body;
    } else {
      var more := body + first[0];
      assert (first + rest)[1..] == first[1..] + rest;
      assert body + Flat(first) == more + Flat(first[1..]);
      BodyReadOn(more, first[1..], rest, length, maxBody);
    }
  }

  /** A cut that stops one byte short of the length and then brings a full chunk. */
  function GreedyCut(bytes: string, short: nat): Script
    requires short < |bytes|
  {
    var last := if |bytes| <= short + RECV_BUFFER then |bytes| else short + RECV_BUFFER;
    Chop(bytes[..short]) + ([bytes[short..last]] + Chop(bytes[last..]))
  }

  lemma GreedyCutIsCut(bytes: string, short: nat)
    requires short < |bytes|
    ensures CutOf(GreedyCut(bytes, short), bytes)
  {
    hide Flat, Chop;
    var last := if |bytes| <= short + RECV_BUFFER then |bytes| else short + RECV_BUFFER;
    FlatChop(bytes[..short]);
    FlatChop(bytes[last..]);
    OneMoreChunk(bytes, short, last, Chop(bytes[last..]));
    FlatAppend(Chop(bytes[..short]), [bytes[short..last]] + Chop(bytes[last..]));
    assert bytes[..short] + bytes[short..] == bytes;
  }

  lemma GreedyCutTooLarge(body: string, bytes: string, length: nat, maxBody: int)
    requires |body| < length <= |body + bytes|
    requires |body + bytes| > maxBody && length + RECV_BUFFER - 1 > maxBody
    ensures ReadBody(body, GreedyCut(bytes, length - 1 - |body|), length, maxBody).BodyTooLarge?
  {
    hide Chop, Flat;
    var short := length - 1 - |body|;
    var last := if |bytes| <= short + RECV_BUFFER then |bytes| else short + RECV_BUFFER;
    var rest := [bytes[short..last]] + Chop(bytes[last..]);
    FlatChop(bytes[..short]);
    BodyReadOn(body, Chop(bytes[..short]), rest, length, maxBody);
    assert |body + bytes[..short] + bytes[short..last]| == |body| + last;
  }

  /** Exactly when the body stage yields the same body for every cut: the leftover already holds it,
      or all of it arrives and no read can overshoot the configured maximum. */
  lemma BodyIndependentIff(body: string, bytes: string, length: nat, maxBody: int)
    ensures (forall script :: CutOf(script, bytes) ==>
               (var r := ReadBody(body, script, length, maxBody);
                r.BodyDone? && length <= |body + bytes| && r.body == (body + bytes)[..length]))
            <==>
            || |body| >= length
            || (length <= |body + bytes| && (|body + bytes| <= maxBody || length + 4095 <= maxBody))
  {
    hide ReadBody, Flat, Chop, GreedyCut, Chunks;
    FlatChop(bytes);
    assert CutOf(Chop(bytes), bytes);
    if |body| >= length {
      forall script | CutOf(script, bytes)
        ensures var r := ReadBody(body, script, length, maxBody);
                r.BodyDone? && r.body == (body + bytes)[..length]
      {
        BodyAtOnce(body, script, length, maxBody);
        assert (body + bytes)[..length] == body[..length];
      }
    } else if length > |body + bytes| {
      BodyShort(body, Chop(bytes), length, maxBody);
    } else if |body + bytes| <= maxBody || length + RECV_BUFFER - 1 <= maxBody {
      forall script | CutOf(script, bytes)
        ensures var r := ReadBody(body, script, length, maxBody);
                r.BodyDone? && r.body == (body + bytes)[..length]
      {
        BodyWhole(body, script, length, maxBody);
      }
    } else {
      GreedyCutIsCut(bytes, length - 1 - |body|);
      GreedyCutTooLarge(body, bytes, length, maxBody);
    }
  }

  lemma BodyAtOnce(body: string, script: Script, length: nat, maxBody: int)
    requires |body| >= length
    ensures ReadBody(body, script, length, maxBody) == BodyDone(body[..length], script)
  {
  }

  /** A stream cut at the blank line, and then as given. */
  function CutAtBlankLine(stream: string, e: nat, rest: Script): Script
    requires e + 4 <= |stream|
  {
    Chop(stream[..e + 4]) + rest
  }

  /** With the blank line in the first 16384 bytes, a stream can arrive so that reading the body starts
      with nothing buffered and any cut of what follows. */
  lemma CutAtBlankLineReads(stream: string, e: nat, rest: Script)
    requires Find(stream, BLANK_LINE, 0) == Some(e) && e + 4 <= |stream| && e + 4 <= 16384
    requires CutOf(rest, stream[e + 4..])
    ensures CutOf(CutAtBlankLine(stream, e, rest), stream)
    ensures ReadHead("", CutAtBlankLine(stream, e, rest)) == HeadDone(stream[..e + 4], rest)
  {
    hide Find, ReadHead, Flat, Chop;
    FlatChop(stream[..e + 4]);
    FlatAppend(Chop(stream[..e + 4]), rest);
    assert stream[..e + 4] + stream[e + 4..] == stream;
    assert stream[..0] == "" && stream[0..e + 4] == stream[..e + 4];
    HeadExact(stream, e, 0, rest);
  }

  /** A cut that stops at the length. */
  lemma ExactCutReads(bytes: string, length: nat, maxBody: int)
    requires length <= |bytes| && length <= maxBody
    ensures var script := Chop(bytes[..length]) + Chop(bytes[length..]);
            && CutOf(script, bytes)
            && ReadBody("", script, length, maxBody) == BodyDone(bytes[..length], Chop(bytes[length..]))
  {
    hide Flat, Chop, ReadBody;
    FlatChop(bytes[..length]);
    FlatChop(bytes[length..]);
    FlatAppend(Chop(bytes[..length]), Chop(bytes[length..]));
    assert bytes[..length] + bytes[length..] == bytes;
    assert "" + bytes[..length] == bytes[..length];
    BodyExact("", Chop(bytes[..length]), Chop(bytes[length..]), length, maxBody);
  }

  /** From raw chunks to head and body: with the blank line ending in the first 16384 bytes and
      `length` bytes after it that cannot overshoot, both are functions of the byte stream alone. */
  lemma RequestIndependentOfChunking(script: Script, e: nat, length: nat, maxBody: int)
    requires Chunks(script) && Find(Flat(script), BLANK_LINE, 0) == Some(e) && e + 4 <= 16384
    requires e + 4 <= |Flat(script)|
    requires var bytes := Flat(script)[e + 4..];
             length <= |bytes| && (length == 0 || |bytes| <= maxBody || length + 4095 <= maxBody)
    ensures var r := ReadHead("", script);
            && r.HeadDone? && e + 4 <= |r.head| && r.head[..e] == Flat(script)[..e]
            && var b := ReadBody(r.head[e + 4..], r.rest, length, maxBody);
            && b.BodyDone? && b.body == Flat(script)[e + 4..][..length]
  {
    hide ReadHead, ReadBody, Find, Flat;
    SameHeadForAllChunkings(script, e);
    var r := ReadHead("", script);
    var leftover := r.head[e + 4..];
    if |leftover| >= length {
      BodyAtOnce(leftover, r.rest, length, maxBody);
      assert leftover[..length] == (leftover + Flat(r.rest))[..length];
    } else {
      BodyWhole(leftover, r.rest, length, maxBody);
    }
  }
}
