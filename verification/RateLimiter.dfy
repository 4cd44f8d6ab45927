/**
 The fixed-window limiter of RateLimiter.h. A call to `Allow` is one atomic step:
 the source takes the clock reading first and then holds the mutex to the end.
 Times are whole seconds of a monotonic clock.
 */
module RateLimiter {

  const WINDOW := 60
  const PURGE_ABOVE := 20000

  datatype Bucket = Bucket(windowStart: int, count: int)

  type Buckets = map<string, Bucket>

  /** `buckets_[ip]`: a missing bucket is created with both fields zero. */
  function Lookup(m: Buckets, ip: string): Bucket {
    if ip in m then m[ip] else Bucket(0, 0)
  }

  function Purged(m: Buckets, now: int): Buckets {
    map ip | ip in m && now - m[ip].windowStart < WINDOW :: m[ip]
  }

  /** What one request does to its bucket, and the answer. */
  function Decide(perMin: int, b: Bucket, now: int): (Bucket, bool) {
    if b.windowStart == 0 || now - b.windowStart >= WINDOW then (Bucket(now, 1), true)
    else if b.count >= perMin then (b, false)
    else (b.(count := b.count + 1), true)
  }

  /** The limiter; `purging` tells the real one from the one that never forgets. */
  datatype State = State(perMin: int, buckets: Buckets)

  function Step(purging: bool, s: State, ip: string, now: int): (State, bool) {
    if s.perMin <= 0 then (s, true)
    else
      var m := if purging && |s.buckets| > PURGE_ABOVE then Purged(s.buckets, now) else s.buckets;
      var (b, ok) := Decide(s.perMin, Lookup(m, ip), now);
      (State(s.perMin, m[ip := b]), ok)
  }

  class RateLimiter {
    var perMin: int
    var buckets: Buckets

    function Contents(): State
      reads this
    {
      State(perMin, buckets)
    }

    constructor (perMin: int)
      ensures Contents() == State(perMin, map[])
    {
      this.perMin := perMin;
      buckets := map[];
    }

    method SetLimit(perMin: int)
      modifies this
      ensures Contents() == State(perMin, old(buckets))
    {
      this.perMin := perMin;
    }

    /** Erases old buckets one by one, in whatever order the hash map holds them. */
    method Purge(now: int)
      modifies this`buckets
      ensures buckets == Purged(old(buckets), now)
    {
      var toVisit := buckets.Keys;
      while toVisit != {}
        invariant toVisit <= buckets.Keys <= old(buckets).Keys
        invariant forall ip :: ip in buckets ==> buckets[ip] == old(buckets)[ip]
        invariant forall ip :: ip in buckets && ip !in toVisit ==> now - buckets[ip].windowStart < WINDOW
        invariant forall ip :: ip in old(buckets) && ip !in buckets ==> now - old(buckets)[ip].windowStart >= WINDOW
        decreases toVisit
      {
        var ip :| ip in toVisit;
        if now - buckets[ip].windowStart >= WINDOW {
          buckets := buckets - {ip};
        }
        toVisit := toVisit - {ip};
      }
    }

    method Allow(ip: string, now: int) returns (ok: bool)
      modifies this`buckets
      ensures (Contents(), ok) == Step(true, old(Contents()), ip, now)
    {
      if perMin <= 0 { return true; }
      if |buckets| > PURGE_ABOVE {
        Purge(now);
      }
      ghost var m := buckets;
      if ip !in buckets {
        buckets := buckets[ip := Bucket(0, 0)];
      }
      assert buckets == m[ip := buckets[ip]];
      if buckets[ip].windowStart == 0 || now - buckets[ip].windowStart >= WINDOW {
        buckets := buckets[ip := Bucket(now, 1)];
        assert buckets == m[ip := Bucket(now, 1)];
        return true;
      }
      if buckets[ip].count >= perMin { return false; }
      buckets := buckets[ip := buckets[ip].(count := buckets[ip].count + 1)];
      return true;
    }
  }

  // -------------------------------------------------------------------- runs

  datatype Event = Ask(ip: string, now: int) | SetLimit(perMin: int)

  function Apply(purging: bool, s: State, e: Event): State {
    match e
    case Ask(ip, now) => Step(purging, s, ip, now).0
    case SetLimit(n) => s.(perMin := n)
  }

  function AllButLast<T>(s: seq<T>): seq<T>
    requires s != []
  {
    s[..|s| - 1]
  }

  function Last<T>(s: seq<T>): T
    requires s != []
  {
    s[|s| - 1]
  }

  /** The state after a run that starts with no buckets. */
  function After(purging: bool, perMin: int, events: seq<Event>): State {
    if events == [] then State(perMin, map[])
    else Apply(purging, After(purging, perMin, AllButLast(events)), Last(events))
  }

  /** The answer to the last request of a run. */
  function Answer(purging: bool, perMin: int, events: seq<Event>): bool
    requires events != [] && Last(events).Ask?
  {
    Step(purging, After(purging, perMin, AllButLast(events)), Last(events).ip, Last(events).now).1
  }

  /** No limit changes: a run under one limit. */
  predicate Requests(events: seq<Event>) {
    forall i :: 0 <= i < |events| ==> events[i].Ask?
  }

  /** Requests take the lock in clock order, and the clock has passed zero. */
  predicate Clocked(events: seq<Event>) {
    && (forall i :: 0 <= i < |events| && events[i].Ask? ==> events[i].now >= 1)
    && (forall i, j :: 0 <= i < j < |events| && events[i].Ask? && events[j].Ask? ==> events[i].now <= events[j].now)
  }

  // --------------------------------------------------- no limit, and size

  /** A limit of zero or less allows every request of every run and remembers nothing. */
  lemma {:induction false} NoLimitAllowsAll(purging: bool, perMin: int, events: seq<Event>)
    requires perMin <= 0 && Requests(events)
    ensures After(purging, perMin, events) == State(perMin, map[])
    ensures events != [] ==> Answer(purging, perMin, events)
  {
    if events == [] {
    } else {
      NoLimitAllowsAll(purging, perMin, AllButLast(events));
    }
  }

  /** Which addresses are remembered after a request: from 20001 buckets on only those of the last 60
      seconds and the asker. */
  lemma RememberedAfter(s: State, ip: string, now: int)
    requires s.perMin > 0
    ensures Step(true, s, ip, now).0.buckets.Keys ==
            (set a | a in s.buckets && (|s.buckets| <= 20000 || now - s.buckets[a].windowStart < 60)) + {ip}
  {
  }

  // ------------------------------------- purging never changes an answer

  /** A purge at `p` erases the bucket of `ip`. */
  ghost predicate Forgets(m: Buckets, p: int, ip: string) {
    ip in m && p - m[ip].windowStart >= WINDOW
  }

  /** Exactly when a purge at `p` changes the answer to a request of `ip` at `t`: it erases a full
      bucket whose window is still open at `t`. */
  lemma PurgeShowsIff(m: Buckets, perMin: int, ip: string, p: int, t: int)
    requires perMin > 0
    ensures Decide(perMin, Lookup(Purged(m, p), ip), t).1 != Decide(perMin, Lookup(m, ip), t).1 <==>
            && Forgets(m, p, ip)
            && m[ip].windowStart != 0 && t - m[ip].windowStart < 60 && m[ip].count >= perMin
  {
  }

  /** The next request of a run purges. */
  predicate PurgesNow(s: State) { s.perMin > 0 && |s.buckets| > PURGE_ABOVE }

  /** No request reads a time inside a window that an earlier purge of the run erased. Readings may be
      out of order otherwise, across addresses and within one. */
  ghost predicate NoLateReading(perMin: int, events: seq<Event>) {
    forall i, j :: 0 <= i < j < |events| && events[i].Ask? && events[j].Ask? ==>
      var s := After(true, perMin, events[..i]);
      PurgesNow(s) && Forgets(s.buckets, events[i].now, events[j].ip) ==>
        events[j].now - s.buckets[events[j].ip].windowStart >= WINDOW
  }

  /** Clock order is more than enough. */
  lemma ClockedHasNoLateReading(perMin: int, events: seq<Event>)
    requires Clocked(events)
    ensures NoLateReading(perMin, events)
  {
    hide After;
  }

  /** The real limiter's buckets are the other's, but for those whose window is over whenever their
      address asks in the rest of the run. */
  ghost predicate Covers(lazy: Buckets, full: Buckets, rest: seq<Event>) {
    && (forall ip :: ip in lazy ==> ip in full && lazy[ip] == full[ip])
    && (forall ip, j :: ip in full && ip !in lazy && 0 <= j < |rest| && rest[j].Ask? && rest[j].ip == ip
                        ==> rest[j].now - full[ip].windowStart >= WINDOW)
  }

  lemma CoversAsk(lazy: State, full: State, ip: string, now: int, rest: seq<Event>)
    requires lazy.perMin == full.perMin && Covers(lazy.buckets, full.buckets, [Ask(ip, now)] + rest)
    requires forall j :: 0 <= j < |rest| && rest[j].Ask?
                         && PurgesNow(lazy) && Forgets(lazy.buckets, now, rest[j].ip) ==>
               rest[j].now - lazy.buckets[rest[j].ip].windowStart >= WINDOW
    ensures Step(true, lazy, ip, now).1 == Step(false, full, ip, now).1
    ensures Step(true, lazy, ip, now).0.perMin == Step(false, full, ip, now).0.perMin
    ensures Covers(Step(true, lazy, ip, now).0.buckets, Step(false, full, ip, now).0.buckets, rest)
  {
    var all := [Ask(ip, now)] + rest;
    assert all[0] == Ask(ip, now);
    assert forall j :: 0 <= j < |rest| ==> all[j + 1] == rest[j];
  }

  lemma {:induction false} CoversRun(perMin: int, events: seq<Event>, k: nat)
    requires NoLateReading(perMin, events) && k <= |events|
    ensures After(true, perMin, events[..k]).perMin == After(false, perMin, events[..k]).perMin
    ensures Covers(After(true, perMin, events[..k]).buckets, After(false, perMin, events[..k]).buckets, events[k..])
  {
    hide Step, Covers;
    if k == 0 {
      NothingToCover(events);
    } else {
      CoversRun(perMin, events, k - 1);
      assert AllButLast(events[..k]) == events[..k - 1];
      var lazy, full := After(true, perMin, events[..k - 1]), After(false, perMin, events[..k - 1]);
      assert events[k - 1..] == [events[k - 1]] + events[k..];
      match events[k - 1] {
        case SetLimit(_) =>
          CoversLess(lazy.buckets, full.buckets, events[k - 1], events[k..]);
        case Ask(ip, now) =>
          CoversAsk(lazy, full, ip, now, events[k..]);
      }
    }
  }

  lemma NothingToCover(rest: seq<Event>)
    ensures Covers(map[], map[], rest)
  {
  }

  lemma CoversLess(lazy: Buckets, full: Buckets, e: Event, rest: seq<Event>)
    requires Covers(lazy, full, [e] + rest)
    ensures Covers(lazy, full, rest)
  {
    assert forall j :: 0 <= j < |rest| ==> ([e] + rest)[j + 1] == rest[j];
  }

  /** On every step of every run without late readings -- in clock order or not -- the real limiter
      answers as one that never purges would. */
  lemma PurgeIsInvisible(perMin: int, events: seq<Event>)
    requires NoLateReading(perMin, events)
    requires events != [] && Last(events).Ask?
    ensures Answer(true, perMin, events) == Answer(false, perMin, events)
  {
    hide Step, Covers, After;
    var k := |events| - 1;
    CoversRun(perMin, events, k);
    assert events[k..] == [Last(events)] + [];
    var lazy, full := After(true, perMin, events[..k]), After(false, perMin, events[..k]);
    CoversAsk(lazy, full, Last(events).ip, Last(events).now, []);
  }

  /** After a run without late readings, exactly when the next request, whatever it reads, is answered
      otherwise than by a limiter that never purges: its bucket has been erased, and that limiter still
      holds it full in a window open at the time read. */
  lemma LateReadingShowsIff(perMin: int, events: seq<Event>)
    requires events != [] && Last(events).Ask? && NoLateReading(perMin, AllButLast(events))
    ensures Answer(true, perMin, events) != Answer(false, perMin, events) <==>
            var lazy, full := After(true, perMin, AllButLast(events)), After(false, perMin, AllButLast(events));
            var ip, t := Last(events).ip, Last(events).now;
            && full.perMin > 0 && ip !in lazy.buckets && ip in full.buckets
            && full.buckets[ip].windowStart != 0 && t - full.buckets[ip].windowStart < 60
            && full.buckets[ip].count >= full.perMin
  {
    hide After;
    var before := AllButLast(events);
    CoversRun(perMin, before, |before|);
    assert before[..|before|] == before;
  }

  // ------------------------------------------------ addresses do not interact

  /** When `ip` asked. */
  function TimesOf(events: seq<Event>, ip: string): seq<int> {
    if events == [] then []
    else
      var e := Last(events);
      TimesOf(AllButLast(events), ip) + (if e.Ask? && e.ip == ip then [e.now] else [])
  }

  /** One bucket serving one address under the limit `n`. */
  function BucketAfter(n: int, times: seq<int>): Bucket {
    if times == [] then Bucket(0, 0) else Decide(n, BucketAfter(n, AllButLast(times)), Last(times)).0
  }

  function Allowed(n: int, times: seq<int>): bool
    requires times != []
  {
    Decide(n, BucketAfter(n, AllButLast(times)), Last(times)).1
  }

  lemma {:induction false} OneBucketPerAddress(n: int, events: seq<Event>, ip: string)
    requires n > 0 && Requests(events)
    ensures After(false, n, events).perMin == n
    ensures Lookup(After(false, n, events).buckets, ip) == BucketAfter(n, TimesOf(events, ip))
  {
    if events == [] {
    } else {
      var times := TimesOf(AllButLast(events), ip);
      OneBucketPerAddress(n, AllButLast(events), ip);
      assert times + [] == times;
      assert forall t :: AllButLast(times + [t]) == times;
    }
  }

  /** Under a fixed limit the answer depends on the asker's own request times alone. */
  lemma AnswerFromOwnTimes(n: int, events: seq<Event>)
    requires n > 0 && NoLateReading(n, events) && Requests(events) && events != []
    ensures TimesOf(events, Last(events).ip) != []
    ensures Answer(true, n, events) == Allowed(n, TimesOf(events, Last(events).ip))
  {
    PurgeIsInvisible(n, events);
    OneBucketPerAddress(n, AllButLast(events), Last(events).ip);
  }

  // --------------------------------------------------- what a window promises

  /** Readings of a clock that has passed zero, in any order. */
  predicate Positive(times: seq<int>) {
    forall i :: 0 <= i < |times| ==> times[i] >= 1
  }

  /** No reading is more than `d` seconds before an earlier one; with `d == 0` they ascend. */
  predicate LateBy(times: seq<int>, d: int) {
    forall i, j :: 0 <= i < j < |times| ==> times[i] - d <= times[j]
  }

  /** Requests read a clock that has passed zero. */
  predicate Ticking(events: seq<Event>) {
    forall i :: 0 <= i < |events| && events[i].Ask? ==> events[i].now >= 1
  }

  lemma {:induction false} TimesOfIn(events: seq<Event>, ip: string)
    ensures forall t :: t in TimesOf(events, ip) ==> exists i :: 0 <= i < |events| && events[i] == Ask(ip, t)
  {
    if events == [] {
    } else {
      var before := AllButLast(events);
      TimesOfIn(before, ip);
      forall t | t in TimesOf(before, ip)
        ensures exists i :: 0 <= i < |events| - 1 && events[i] == Ask(ip, t)
      {
        var i :| 0 <= i < |before| && before[i] == Ask(ip, t);
        assert events[i] == Ask(ip, t);
      }
      if Last(events).Ask? && Last(events).ip == ip {
        assert events[|events| - 1] == Ask(ip, Last(events).now);
      }
    }
  }

  lemma TimesPositive(events: seq<Event>, ip: string)
    requires Ticking(events)
    ensures Positive(TimesOf(events, ip))
  {
    hide TimesOf;
    TimesOfIn(events, ip);
    var times := TimesOf(events, ip);
    forall i | 0 <= i < |times| ensures times[i] >= 1 {
      assert times[i] in times;
    }
  }

  lemma {:induction false} TimesAscend(events: seq<Event>, ip: string)
    requires Clocked(events)
    ensures LateBy(TimesOf(events, ip), 0)
  {
    if events == [] {
    } else {
      var before := AllButLast(events);
      TimesAscend(before, ip);
      TimesOfIn(before, ip);
      var times := TimesOf(before, ip);
      forall i | 0 <= i < |times| ensures times[i] in times {
      }
    }
  }

  /** Which request opened the window of the last one: a request opens a window
      when 60 seconds have passed since the previous opening. */
  function Opening(times: seq<int>): (k: nat)
    requires times != []
    ensures k < |times|
  {
    if |times| == 1 then 0
    else
      var j := Opening(AllButLast(times));
      if Last(times) - times[j] >= 60 then |times| - 1 else j
  }

  function Min(a: int, b: int): int { if a <= b then a else b }

  lemma {:induction false} BucketIsWindow(n: int, times: seq<int>)
    requires n > 0 && Positive(times) && times != []
    ensures BucketAfter(n, times) == Bucket(times[Opening(times)], Min(n, |times| - Opening(times)))
  {
    if |times| > 1 {
      var before := AllButLast(times);
      BucketIsWindow(n, before);
      assert before[Opening(before)] == times[Opening(before)];
    } else {
      assert AllButLast(times) == [];
    }
  }

  /** A request is allowed exactly when fewer than n requests precede it in its window. */
  lemma AllowedIffRoomInWindow(n: int, times: seq<int>)
    requires n > 0 && Positive(times) && times != []
    ensures Allowed(n, times) <==> |times| - 1 - Opening(times) < n
  {
    hide BucketAfter;
    var before := AllButLast(times);
    if |times| > 1 {
      var j := Opening(before);
      BucketIsWindow(n, before);
      assert BucketAfter(n, before) == Bucket(times[j], Min(n, |before| - j));
    } else {
      assert before == [];
      FreshBucket(n);
    }
  }

  lemma FreshBucket(n: int)
    ensures BucketAfter(n, []) == Bucket(0, 0)
  {
  }

  lemma {:induction false} OpeningsAdvance(times: seq<int>, k: nat)
    requires 1 <= k <= |times|
    ensures Opening(times[..k]) <= Opening(times)
    ensures times[Opening(times[..k])] <= times[Opening(times)]
    decreases |times|
  {
    if k == |times| {
      assert times[..k] == times;
    } else {
      assert AllButLast(times)[..k] == times[..k];
      OpeningsAdvance(AllButLast(times), k);
    }
  }

  /** Request k opens a window. */
  predicate Opens(times: seq<int>, k: nat)
    requires k < |times|
  {
    Opening(times[..k + 1]) == k
  }

  /** Openings of one address are at least 60 seconds apart, whatever the order of the readings. */
  lemma OpeningsFarApart(times: seq<int>, i: nat, k: nat)
    requires i < k < |times|
    requires Opens(times, i) && Opens(times, k)
    ensures times[k] - times[i] >= 60
  {
    var t := times[..k + 1];
    assert AllButLast(t) == times[..k];
    assert times[..k][..i + 1] == times[..i + 1];
    OpeningsAdvance(times[..k], i + 1);
  }

  // ------------------------------------------------------------ span bounds

  /** Requests allowed at times a <= t < a + 60. */
  function AllowedInSpan(n: int, times: seq<int>, a: int): nat {
    if times == [] then 0
    else
      AllowedInSpan(n, AllButLast(times), a)
      + (if Allowed(n, times) && a <= Last(times) < a + 60 then 1 else 0)
  }

  /** What the current window, opened at w with c requests allowed, leaves possible in the span. */
  ghost predicate SpanFits(n: int, w: int, c: int, span: int, a: int) {
    && (w + 60 <= a ==> span == 0)
    && (w < a ==> span <= c - 1)
    && (w == a ==> span <= c)
    && (a < w < a + 60 ==> span <= n - 1 + c)
    && (w == a + 60 ==> span <= n - 1 + c)
    && span <= 2 * n - 1
  }

  lemma {:induction false} SpanByWindow(n: int, times: seq<int>, a: int)
    requires n > 0 && Positive(times) && times != [] && (n == 1 || LateBy(times, 1))
    ensures SpanFits(n, times[Opening(times)], Min(n, |times| - Opening(times)), AllowedInSpan(n, times, a), a)
  {
    AllowedIffRoomInWindow(n, times);
    if |times| == 1 {
      assert AllButLast(times) == [];
    } else {
      var before := AllButLast(times);
      SpanByWindow(n, before, a);
      assert before[Opening(before)] == times[Opening(before)];
    }
  }

  /** At most 2n - 1 requests of one address are allowed in any 60 seconds, if none reads a time more
      than a second before an earlier one. */
  lemma AtMostTwiceTheLimit(n: int, times: seq<int>, a: int)
    requires n > 0 && Positive(times) && (n == 1 || LateBy(times, 1))
    ensures AllowedInSpan(n, times, a) <= 2 * n - 1
  {
    if times == [] {
    } else {
      SpanByWindow(n, times, a);
    }
  }

  /** One request at 1, n - 1 at 60, n at 61, one at 121, and from then on requests that read 119. */
  function Burst(n: nat, len: nat): (times: seq<int>)
    ensures |times| == len
  {
    seq(len, k => if k == 0 then 1
                  else if k < n then 60
                  else if k < 2 * n then 61
                  else if k == 2 * n then 121
                  else 119)
  }

  lemma BurstIsLate(n: nat, len: nat)
    requires n > 0 && 1 <= len <= 3 * n
    ensures Positive(Burst(n, len)) && LateBy(Burst(n, len), if len <= 2 * n then 0 else 2)
    ensures len > 1 ==> AllButLast(Burst(n, len)) == Burst(n, len - 1)
  {
  }

  lemma {:induction false} BurstOpening(n: nat, len: nat)
    requires n > 0 && 1 <= len <= 3 * n
    ensures Opening(Burst(n, len)) == if len <= n then 0 else if len <= 2 * n then n else 2 * n
  {
    if len == 1 {
    } else {
      BurstIsLate(n, len);
      BurstOpening(n, len - 1);
    }
  }

  lemma {:induction false} BurstSpan(n: nat, len: nat)
    requires n > 0 && 1 <= len <= 3 * n
    ensures AllowedInSpan(n, Burst(n, len), 60) == if len <= 2 * n then len - 1 else len - 2
  {
    hide Allowed, Opening, LateBy;
    var times := Burst(n, len);
    BurstIsLate(n, len);
    BurstOpening(n, len);
    AllowedIffRoomInWindow(n, times);
    if len == 1 {
      assert AllButLast(times) == [];
    } else {
      BurstSpan(n, len - 1);
    }
  }

  /** Requests allowed among those with index at least `from`. */
  function AllowedSince(n: int, times: seq<int>, from: nat): nat {
    if |times| <= from then 0
    else AllowedSince(n, AllButLast(times), from) + (if Allowed(n, times) then 1 else 0)
  }

  lemma {:induction false} CountSinceOpening(n: int, times: seq<int>, from: nat)
    requires n > 0 && Positive(times) && times != [] && from == Opening(times)
    ensures AllowedSince(n, times, from) == Min(n, |times| - from)
  {
    AllowedIffRoomInWindow(n, times);
    if |times| > 1 && from < |times| - 1 {
      CountSinceOpening(n, AllButLast(times), from);
    } else {
      assert AllowedSince(n, AllButLast(times), from) == 0;
    }
  }

  /** Refused exactly when n requests were allowed since a window opened less than 60 seconds ago. */
  lemma RefusedIffWindowFull(n: int, times: seq<int>)
    requires n > 0 && Positive(times) && |times| > 1
    ensures var before := AllButLast(times);
            !Allowed(n, times) <==>
            && Last(times) - times[Opening(before)] < 60
            && AllowedSince(n, before, Opening(before)) == n
  {
    var before := AllButLast(times);
    AllowedIffRoomInWindow(n, times);
    CountSinceOpening(n, before, Opening(before));
  }

  // ------------------------------------------------- the bounds on whole runs

  /** Requests of `ip` that the real limiter allows at times a <= t < a + 60 of a run. */
  function AllowedInRun(n: int, events: seq<Event>, ip: string, a: int): nat
    requires Requests(events)
  {
    if events == [] then 0
    else
      var e := Last(events);
      AllowedInRun(n, AllButLast(events), ip, a)
      + (if e.ip == ip && Answer(true, n, events) && a <= e.now < a + 60 then 1 else 0)
  }

  lemma NoLateReadingBefore(perMin: int, events: seq<Event>)
    requires NoLateReading(perMin, events) && events != []
    ensures NoLateReading(perMin, AllButLast(events))
  {
    hide After;
    forall i | 0 <= i < |events| - 1 ensures AllButLast(events)[..i] == events[..i] {
    }
  }

  lemma {:induction false} RunSpanIsOwnSpan(n: int, events: seq<Event>, ip: string, a: int)
    requires n > 0 && NoLateReading(n, events) && Requests(events)
    ensures AllowedInRun(n, events, ip, a) == AllowedInSpan(n, TimesOf(events, ip), a)
  {
    hide NoLateReading;
    if events == [] {
    } else {
      var before, e := AllButLast(events), Last(events);
      var times := TimesOf(before, ip);
      NoLateReadingBefore(n, events);
      RunSpanIsOwnSpan(n, before, ip, a);
      AnswerFromOwnTimes(n, events);
      assert times + [] == times;
      assert AllButLast(times + [e.now]) == times;
    }
  }

  /** However requests of all addresses interleave, and in clock order or not, an address none of whose
      requests is more than a second late gets at most 2n - 1 in 60 seconds. */
  lemma RunSpanBound(n: int, events: seq<Event>, ip: string, a: int)
    requires n > 0 && Ticking(events) && NoLateReading(n, events) && Requests(events)
    requires n == 1 || LateBy(TimesOf(events, ip), 1)
    ensures AllowedInRun(n, events, ip, a) <= 2 * n - 1
  {
    RunSpanIsOwnSpan(n, events, ip, a);
    TimesPositive(events, ip);
    AtMostTwiceTheLimit(n, TimesOf(events, ip), a);
  }

  /** In clock order nothing is late. */
  lemma ClockedIsPunctual(perMin: int, events: seq<Event>, ip: string)
    requires Clocked(events)
    ensures Ticking(events) && NoLateReading(perMin, events) && LateBy(TimesOf(events, ip), 0)
  {
    ClockedHasNoLateReading(perMin, events);
    TimesAscend(events, ip);
  }

  /** A run in which one address asks at the given times. */
  function RunOf(ip: string, times: seq<int>): (events: seq<Event>)
    ensures |events| == |times|
  {
    seq(|times|, k requires 0 <= k < |times| => Ask(ip, times[k]))
  }

  lemma RunOfIs(ip: string, times: seq<int>)
    requires Positive(times)
    ensures Requests(RunOf(ip, times)) && Ticking(RunOf(ip, times))
    ensures LateBy(times, 0) ==> Clocked(RunOf(ip, times))
  {
  }

  lemma {:induction false} TimesOfRun(ip: string, times: seq<int>)
    ensures TimesOf(RunOf(ip, times), ip) == times
  {
    if times == [] {
    } else {
      var before := AllButLast(times);
      TimesOfRun(ip, before);
      assert AllButLast(RunOf(ip, times)) == RunOf(ip, before);
      assert times == before + [Last(times)];
    }
  }

  /** A run of few requests never purges. */
  lemma {:induction false} FewBuckets(perMin: int, events: seq<Event>, ip: string)
    requires forall i :: 0 <= i < |events| && events[i].Ask? ==> events[i].ip == ip
    ensures After(true, perMin, events).buckets.Keys <= {ip}
  {
    if events == [] {
    } else {
      FewBuckets(perMin, AllButLast(events), ip);
      OneKey(After(true, perMin, AllButLast(events)).buckets, ip);
    }
  }

  lemma OneKey(m: Buckets, ip: string)
    requires m.Keys <= {ip}
    ensures |m| <= 1
  {
    if ip in m {
      assert m.Keys == {ip};
    } else {
      assert m.Keys == {};
    }
  }

  lemma OneAddressNeverPurges(perMin: int, ip: string, times: seq<int>)
    ensures NoLateReading(perMin, RunOf(ip, times))
  {
    hide After;
    var events := RunOf(ip, times);
    forall i | 0 <= i < |events| ensures !PurgesNow(After(true, perMin, events[..i])) {
      FewBuckets(perMin, events[..i], ip);
      OneKey(After(true, perMin, events[..i]).buckets, ip);
    }
  }

  /** For every limit and address the bound is reached: by a run in clock order of 2n requests, at
      1, 60 and 61 seconds. */
  lemma TwiceTheLimitIsReached(n: nat, ip: string)
    requires n > 0
    ensures var events := RunOf(ip, Burst(n, 2 * n));
            Requests(events) && Clocked(events) && AllowedInRun(n, events, ip, 60) == 2 * n - 1
  {
    var times := Burst(n, 2 * n);
    BurstIsLate(n, 2 * n);
    BurstSpan(n, 2 * n);
    RunOfIs(ip, times);
    TimesOfRun(ip, times);
    OneAddressNeverPurges(n, ip, times);
    RunSpanIsOwnSpan(n, RunOf(ip, times), ip, 60);
  }

  /** Readings two seconds late let n - 1 more through: those at 119, after the window opened at 121. */
  lemma TwoSecondsLate(n: nat, ip: string)
    requires n > 0
    ensures var events := RunOf(ip, Burst(n, 3 * n));
            && Requests(events) && Ticking(events) && NoLateReading(n, events) && LateBy(TimesOf(events, ip), 2)
            && AllowedInRun(n, events, ip, 60) == 3 * n - 2
  {
    var times := Burst(n, 3 * n);
    BurstIsLate(n, 3 * n);
    BurstSpan(n, 3 * n);
    RunOfIs(ip, times);
    TimesOfRun(ip, times);
    OneAddressNeverPurges(n, ip, times);
    RunSpanIsOwnSpan(n, RunOf(ip, times), ip, 60);
  }

  /** Runs under one limit in which no request reads a time inside a window that a purge erased. */
  ghost predicate SteadyRun(n: int, events: seq<Event>) {
    Requests(events) && Ticking(events) && NoLateReading(n, events)
  }

  /** How late an address's own readings may be for the bound 2n - 1 to hold: one second, unless the
      limit is one, which any lateness leaves at one. */
  lemma LatenessBoundIff(n: nat, d: nat)
    requires n > 0
    ensures (forall events, ip, a :: SteadyRun(n, events) && LateBy(TimesOf(events, ip), d) ==>
               AllowedInRun(n, events, ip, a) <= 2 * n - 1)
            <==> n == 1 || d <= 1
  {
    hide AllowedInRun, NoLateReading, RunOf, Burst, TimesOf;
    if n == 1 || d <= 1 {
      forall events, ip, a | SteadyRun(n, events) && LateBy(TimesOf(events, ip), d)
        ensures AllowedInRun(n, events, ip, a) <= 2 * n - 1
      {
        RunSpanBound(n, events, ip, a);
      }
    } else {
      TwoSecondsLate(n, "a");
      assert SteadyRun(n, RunOf("a", Burst(n, 3 * n))) && LateBy(TimesOf(RunOf("a", Burst(n, 3 * n)), "a"), d);
    }
  }

  /** The documented bound, n requests of an address in any 60 seconds, is what a limit of one keeps
      and no other, be it in clock order. */
  lemma LimitIsBoundIff(n: nat)
    requires n > 0
    ensures (forall events, ip, a :: SteadyRun(n, events) ==> AllowedInRun(n, events, ip, a) <= n) <==> n == 1
    ensures (forall events, ip, a :: Requests(events) && Clocked(events) ==> AllowedInRun(n, events, ip, a) <= n)
            <==> n == 1
  {
    hide AllowedInRun, Clocked, RunOf, Burst, NoLateReading;
    TwiceTheLimitIsReached(n, "a");
    ClockedIsPunctual(n, RunOf("a", Burst(n, 2 * n)), "a");
    if n == 1 {
      forall events, ip, a | SteadyRun(n, events) ensures AllowedInRun(n, events, ip, a) <= n {
        RunSpanBound(n, events, ip, a);
      }
      forall events | Clocked(events) && Requests(events) ensures SteadyRun(n, events) {
        ClockedIsPunctual(n, events, "");
      }
    }
  }

  /** The answer to any request of a run, in clock order or not, from the asker's own times: is there
      room in the window? */
  lemma AnswerIffRoom(n: int, events: seq<Event>)
    requires n > 0 && Requests(events) && Ticking(events) && NoLateReading(n, events) && events != []
    ensures var times := TimesOf(events, Last(events).ip);
            times != [] && (Answer(true, n, events) <==> |times| - 1 - Opening(times) < n)
  {
    AnswerFromOwnTimes(n, events);
    TimesPositive(events, Last(events).ip);
    AllowedIffRoomInWindow(n, TimesOf(events, Last(events).ip));
  }

  // --------------------------- the clock reading is taken before the lock

  function Address(k: nat): (s: string)
    ensures |s| == k
  {
    seq(k, _ => 'a')
  }

  /** `len` different addresses asking in the same second. */
  function Crowd(len: nat, now: int): (events: seq<Event>)
    ensures |events| == len
  {
    seq(len, k requires 0 <= k < len => Ask(Address(k), now))
  }

  lemma {:induction false} CrowdFillsBuckets(purging: bool, len: nat, now: int)
    requires len <= PURGE_ABOVE + 1
    ensures var s := After(purging, 1, Crowd(len, now));
            && s.perMin == 1 && |s.buckets| == len
            && (forall ip :: ip in s.buckets ==> |ip| < len && s.buckets[ip] == Bucket(now, 1))
            && (len > 1 ==> Address(1) in s.buckets)
  {
    if len == 0 {
      assert Crowd(len, now) == [];
    } else {
      var k := len - 1;
      assert AllButLast(Crowd(len, now)) == Crowd(k, now);
      CrowdFillsBuckets(purging, k, now);
      var m := After(purging, 1, Crowd(k, now)).buckets;
      assert Address(k) !in m;
      assert After(purging, 1, Crowd(len, now)).buckets == m[Address(k) := Bucket(now, 1)];
    }
  }

  /** A purge at p forgets buckets opened at p - 60, which an earlier reading would still find full. */
  lemma PurgeForgets(s: State, ip: string, p: int, t: int)
    requires s.perMin == 1 && |s.buckets| > PURGE_ABOVE && ip in s.buckets && ip != "b" && t < p && p != 60
    requires forall i :: i in s.buckets ==> s.buckets[i] == Bucket(p - 60, 1)
    ensures Step(true, Step(true, s, "b", p).0, ip, t).1
    ensures !Step(false, Step(false, s, "b", p).0, ip, t).1
  {
    assert Purged(s.buckets, p) == map[];
  }

  lemma AfterOneMore(purging: bool, perMin: int, events: seq<Event>, e: Event)
    ensures After(purging, perMin, events + [e]) == Apply(purging, After(purging, perMin, events), e)
    ensures e.Ask? ==>
              Answer(purging, perMin, events + [e]) == Step(purging, After(purging, perMin, events), e.ip, e.now).1
  {
    assert AllButLast(events + [e]) == events;
  }

  /** 20001 addresses at p - 60, then one more that finds them at p and purges. */
  function PurgeRun(p: int): seq<Event> {
    Crowd(20001, p - 60) + [Ask("b", p)]
  }

  lemma PurgeRunClocked(p: int)
    requires p >= 61
    ensures Clocked(PurgeRun(p)) && Requests(PurgeRun(p)) && Last(PurgeRun(p)) == Ask("b", p)
  {
  }

  /** After the purge at p, a request that read any earlier time t, be it one second, is let through
      although its address has used up its limit in the window still open at t. */
  lemma LateReadingPasses(p: int, t: int)
    requires 1 <= t < p && p >= 61
    ensures Clocked(PurgeRun(p)) && Requests(PurgeRun(p)) && Last(PurgeRun(p)).now == p
    ensures Answer(true, 1, PurgeRun(p) + [Ask("a", t)]) && !Answer(false, 1, PurgeRun(p) + [Ask("a", t)])
  {
    hide After, Step, Answer, Crowd, Address;
    PurgeRunClocked(p);
    var crowd := Crowd(20001, p - 60);
    CrowdFillsBuckets(true, 20001, p - 60);
    CrowdFillsBuckets(false, 20001, p - 60);
    AddressIsA();
    forall purging: bool ensures Answer(purging, 1, PurgeRun(p) + [Ask("a", t)]) == purging {
      PurgeForgets(After(purging, 1, crowd), "a", p, t);
      AfterOneMore(purging, 1, crowd, Ask("b", p));
      AfterOneMore(purging, 1, PurgeRun(p), Ask("a", t));
    }
  }

  /** A run in clock order up to a request that reads p, and then one that reads t, in which the real
      limiter's last answer is not that of one that never purges. */
  ghost predicate ShowsPurge(perMin: int, events: seq<Event>, ip: string, p: int, t: int) {
    && Clocked(events) && events != [] && Last(events).Ask? && Last(events).now == p
    && Answer(true, perMin, events + [Ask(ip, t)]) != Answer(false, perMin, events + [Ask(ip, t)])
  }

  lemma LateReadingShows(p: int, t: int)
    requires 1 <= t < p && p >= 61
    ensures ShowsPurge(1, PurgeRun(p), "a", p, t)
  {
    hide Answer, Clocked, Crowd;
    PurgeRunClocked(p);
    LateReadingPasses(p, t);
  }

  /** Windows open no earlier than the clock's first second. */
  lemma {:induction false} WindowsOpenLate(purging: bool, perMin: int, events: seq<Event>)
    requires Clocked(events)
    ensures forall ip :: ip in After(purging, perMin, events).buckets ==>
              After(purging, perMin, events).buckets[ip].windowStart >= 1
  {
    if events == [] {
    } else {
      WindowsOpenLate(purging, perMin, AllButLast(events));
    }
  }

  lemma NothingShows(perMin: int, events: seq<Event>, ip: string, p: int, t: int)
    requires t >= 1 && (t >= p || p < 61)
    ensures !ShowsPurge(perMin, events, ip, p, t)
  {
    hide After, Answer;
    if Clocked(events) && events != [] && Last(events).Ask? && Last(events).now == p {
      var all := events + [Ask(ip, t)];
      if t >= p {
        assert Clocked(all);
        ClockedHasNoLateReading(perMin, all);
      } else {
        forall i | 0 <= i < |events| && events[i].Ask?
          ensures !exists a :: Forgets(After(true, perMin, all[..i]).buckets, events[i].now, a)
        {
          assert all[..i] == events[..i] && Clocked(events[..i]);
          WindowsOpenLate(true, perMin, events[..i]);
        }
      }
      PurgeIsInvisible(perMin, all);
    }
  }

  /** Exactly which readings out of order can show: t before p, and p at least a window after the
      clock's first second. */
  lemma LockOrderMattersIff(p: int, t: int)
    requires p >= 1 && t >= 1
    ensures (exists perMin, events, ip :: ShowsPurge(perMin, events, ip, p, t)) <==> t < p && p >= 61
  {
    hide ShowsPurge, PurgeRun, Clocked;
    if t < p && p >= 61 {
      LateReadingPasses(p, t);
      LateReadingShows(p, t);
    }
    forall perMin, events, ip | ShowsPurge(perMin, events, ip, p, t) ensures t < p && p >= 61 {
      if t >= p || p < 61 {
        NothingShows(perMin, events, ip, p, t);
      }
    }
  }

  lemma AddressIsA()
    ensures Address(1) == "a" && Address(1) != "b"
  {
  }
}
