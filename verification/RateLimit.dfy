/** The token-bucket limiter, with exact arithmetic. */
module RateLimit {
  import opened Wrappers
  import opened Text
  import opened Bucket

  // Burst size and tokens per second.
  datatype Limit = Limit(capacity: int, rate: real) {
    function Cap(): real { capacity as real }
  }

  // A clock reading in tokens.
  function Tick(l: Limit, time: real): real { l.rate * time }

  function Ticks(l: Limit, times: seq<real>): (ticks: seq<real>)
    ensures |ticks| == |times| && forall i :: 0 <= i < |times| ==> ticks[i] == Tick(l, times[i])
  {
    seq(|times|, i requires 0 <= i < |times| => Tick(l, times[i]))
  }

  function Verdicts(l: Limit, times: seq<real>): (d: seq<bool>)
    ensures |d| == |times|
  {
    Decisions(l.Cap(), Ticks(l, times))
  }

  lemma TickDifference(l: Limit, times: seq<real>, i: nat, n: nat)
    requires i < |times| && n < |times|
    ensures Ticks(l, times)[n] - Ticks(l, times)[i] == l.rate * (times[n] - times[i])
  {
  }

  lemma ElapsedTicks(l: Limit, last: real, now: real)
    ensures (now - last) * l.rate == Tick(l, now) - Tick(l, last)
  {
  }

  // Every window that ends in request n, with n in it, is within capacity + rate * elapsed.
  ghost predicate WithinLimit(l: Limit, times: seq<real>, n: nat)
    requires n < |times|
  {
    forall i: nat :: i <= n ==> WindowFits(l, times, i, n)
  }

  // The requests admitted since i, and request n, are within capacity + rate * elapsed.
  predicate WindowFits(l: Limit, times: seq<real>, i: nat, n: nat)
    requires i <= n < |times|
  {
    Count(Verdicts(l, times), i, n) as real + 1.0 <= l.capacity as real + l.rate * (times[n] - times[i])
  }

  /** Exact characterisation, for clock readings in any order and any capacity and rate. */
  lemma AllowedIffWithinLimit(l: Limit, times: seq<real>, n: nat)
    requires n < |times|
    ensures Verdicts(l, times)[n] <==> WithinLimit(l, times, n)
  {
    var ticks := Ticks(l, times);
    AllowedIffFits(l.Cap(), ticks, n);
    forall i: nat | i <= n
      ensures WindowFits(l, times, i, n) <==>
        Count(Verdicts(l, times), i, n) as real + 1.0 <= l.Cap() + (ticks[n] - ticks[i])
    {
      TickDifference(l, times, i, n);
    }
  }

  // ---- windows of clock time --------------------------------------------------------------

  lemma TickMono(l: Limit, x: real, y: real)
    requires l.rate >= 0.0 && x <= y
    ensures Tick(l, x) <= Tick(l, y)
  {
    ScaleMono(l.rate, x, y);
  }

  // Readings in a window of time are, in ticks, in the window's ticks.
  lemma {:induction false} WithinTicks(l: Limit, times: seq<real>, d: seq<bool>, from: real, to: real, n: nat)
    requires n <= |times| == |d| && l.rate >= 0.0
    ensures CountWithin(times, d, from, to, n) <= CountWithin(Ticks(l, times), d, Tick(l, from), Tick(l, to), n)
  {
    if n > 0 {
      WithinTicks(l, times, d, from, to, n - 1);
      if from <= times[n - 1] <= to {
        TickMono(l, from, times[n - 1]);
        TickMono(l, times[n - 1], to);
      }
    }
  }

  // Nothing was admitted with a reading in the window, or at most burst plus rate.
  predicate WindowBounded(l: Limit, times: seq<real>, from: real, to: real) {
    var admitted := CountWithin(times, Verdicts(l, times), from, to, |times|);
    admitted == 0 || admitted as real <= l.capacity as real + l.rate * (to - from)
  }

  lemma RatePerPeriod(count: int, seconds: int)
    requires seconds > 0 && count >= 0
    ensures PerPeriod(count, seconds).rate >= 0.0
  {
    assert PerPeriod(count, seconds).rate * seconds as real == count as real;
  }

  /**
   Burst plus rate: the requests admitted whose clock readings lie in a window of time are
   at most the capacity and what is refilled in that time, although readings may come in
   any order. A limit with no capacity admits nothing; one with a capacity has a rate.
   */
  lemma BurstPlusRate(l: Limit, times: seq<real>, from: real, to: real)
    requires l.capacity >= 1 ==> l.rate >= 0.0
    ensures WindowBounded(l, times, from, to)
  {
    if l.capacity >= 1 {
      WithinTicks(l, times, Verdicts(l, times), from, to, |times|);
      ReadingsWithin(l.Cap(), Ticks(l, times), Tick(l, from), Tick(l, to), |times|);
      ElapsedTicks(l, from, to);
    } else {
      NothingWithin(l.Cap(), Ticks(l, times), times, from, to, |times|);
    }
  }

  // ---- with a clock that does not run backwards -----------------------------------------

  lemma TicksOrdered(l: Limit, times: seq<real>)
    requires Ordered(times) && l.rate >= 0.0
    ensures Ordered(Ticks(l, times))
  {
    var ticks := Ticks(l, times);
    forall i: nat, j: nat | i <= j < |ticks| ensures ticks[i] <= ticks[j] {
      TickMono(l, times[i], times[j]);
    }
  }

  lemma ScaleMono(r: real, x: real, y: real)
    requires r >= 0.0 && x <= y
    ensures r * x <= r * y
  {
    assert r * (y - x) >= 0.0;
  }

  // With such a clock every run of requests, whatever it ends in, admits at most burst plus rate.
  lemma BurstPlusRateInOrder(l: Limit, times: seq<real>, i: nat, j: nat)
    requires i <= j < |times| && Ordered(times) && l.capacity >= 0 && l.rate >= 0.0
    ensures Count(Verdicts(l, times), i, j + 1) as real <= l.Cap() + l.rate * (times[j] - times[i])
  {
    TicksOrdered(l, times);
    WindowBound(l.Cap(), Ticks(l, times), i, j);
    TickDifference(l, times, i, j);
  }

  /** A request that comes after time for one token is allowed, and so is a key's first. */
  lemma SpacedRequestAllowed(l: Limit, times: seq<real>, n: nat)
    requires n < |times| && Ordered(times) && l.capacity >= 1 && l.rate >= 0.0
    requires n > 0 ==> l.rate * (times[n] - times[n - 1]) >= 1.0
    ensures Verdicts(l, times)[n]
  {
    TicksOrdered(l, times);
    if n > 0 {
      TickDifference(l, times, n - 1, n);
    }
    SpacedAllowed(l.Cap(), Ticks(l, times), n);
  }

  // ---- Retry-After --------------------------------------------------------------------------

  // A client that is denied and comes back after the advertised second is served.
  ghost predicate RetryAfterHolds(l: Limit) {
    forall times: seq<real>, n: nat ::
      Ordered(times) && n + 1 < |times| && !Verdicts(l, times)[n] && times[n + 1] - times[n] >= 1.0 ==>
        Verdicts(l, times)[n + 1]
  }

  lemma RetryServed(l: Limit, times: seq<real>, n: nat)
    requires l.capacity >= 1 && l.rate >= 1.0
    requires Ordered(times) && n + 1 < |times| && times[n + 1] - times[n] >= 1.0
    ensures Verdicts(l, times)[n + 1]
  {
    ScaleMono(l.rate, 1.0, times[n + 1] - times[n]);
    SpacedRequestAllowed(l, times, n + 1);
  }

  // As many requests at once as the burst allows, one more, and one a second later.
  function Refutation(n: nat): (times: seq<real>)
    ensures |times| == n + 2 && times[n + 1] == 1.0 && forall i :: 0 <= i <= n ==> times[i] == 0.0
  {
    seq(n + 2, i requires 0 <= i < n + 2 => if i <= n then 0.0 else 1.0)
  }

  lemma RetryRefuted(l: Limit)
    requires l.capacity < 1 || l.rate < 1.0
    ensures var n: nat := if l.capacity > 0 then l.capacity else 0; var times := Refutation(n);
      Ordered(times) && times[n + 1] - times[n] == 1.0 && !Verdicts(l, times)[n] && !Verdicts(l, times)[n + 1]
    ensures !RetryAfterHolds(l)
  {
    var n: nat := if l.capacity > 0 then l.capacity else 0;
    var times := Refutation(n);
    var ticks := Ticks(l, times);
    if l.capacity > 0 {
      BurstDrains(l.capacity, ticks, n);
      assert Left(l.Cap(), ticks, n) == 0.0;
      assert ticks[n + 1] - ticks[n] == l.rate;
    } else {
      NothingAllowed(l.Cap(), ticks, n);
      NothingAllowed(l.Cap(), ticks, n + 1);
    }
    assert !Verdicts(l, times)[n] && !Verdicts(l, times)[n + 1];
    assert Ordered(times) && times[n + 1] - times[n] >= 1.0;
  }

  /**
   The header "Retry-After: 1" keeps its word if and only if the limit refills at least
   one token per second; for a slower limit a burst followed by a retry refutes it.
   */
  lemma RetryAfterExact(l: Limit)
    ensures RetryAfterHolds(l) <==> l.capacity >= 1 && l.rate >= 1.0
  {
    if l.capacity >= 1 && l.rate >= 1.0 {
      forall times: seq<real>, n: nat |
        Ordered(times) && n + 1 < |times| && !Verdicts(l, times)[n] && times[n + 1] - times[n] >= 1.0
        ensures Verdicts(l, times)[n + 1]
      {
        RetryServed(l, times, n);
      }
    } else {
      RetryRefuted(l);
    }
  }

  // ---- the limiter --------------------------------------------------------------------------

  datatype Request = Request(key: string, now: real)

  // The clock readings of one key's requests, in the order the lock admitted them.
  function Times(trace: seq<Request>, key: string): seq<real> {
    if trace == [] then []
    else
      var n := |trace| - 1;
      Times(trace[..n], key) + if trace[n].key == key then [trace[n].now] else []
  }

  datatype TokenBucket = TokenBucket(tokens: real, lastRefill: real)

  // The bucket that a key's requests so far leave behind.
  function BucketAfter(l: Limit, times: seq<real>): TokenBucket
    requires times != []
  {
    TokenBucket(Left(l.Cap(), Ticks(l, times), |times| - 1), times[|times| - 1])
  }

  lemma TicksPrefix(l: Limit, before: seq<real>, now: real)
    ensures Ticks(l, before) <= Ticks(l, before + [now])
  {
    assert Ticks(l, before + [now]) == Ticks(l, before) + [Tick(l, now)];
  }

  // A lazy refill since the last request finds what a bucket filled all along would hold.
  lemma RefillFinds(l: Limit, before: seq<real>, now: real, gain: real)
    requires before != [] && gain == Tick(l, now) - Tick(l, before[|before| - 1])
    ensures Min(l.Cap(), BucketAfter(l, before).tokens + gain) == Found(l.Cap(), Ticks(l, before + [now]), |before|)
  {
    TicksPrefix(l, before, now);
    RefillFound(l.Cap(), Ticks(l, before), Ticks(l, before + [now]), |before|, gain);
  }

  lemma BucketIs(l: Limit, before: seq<real>, now: real)
    ensures BucketAfter(l, before + [now]) == TokenBucket(Left(l.Cap(), Ticks(l, before + [now]), |before|), now)
  {
  }

  lemma VerdictIs(l: Limit, times: seq<real>, n: nat)
    requires n < |times|
    ensures Verdicts(l, times)[n] <==> Found(l.Cap(), Ticks(l, times), n) >= 1.0
  {
  }

  // Refill the bucket that the requests before this one left, and take a token if there is one.
  method Take(l: Limit, bucket: TokenBucket, now: real, ghost before: seq<real>)
    returns (allowed: bool, next: TokenBucket)
    requires bucket == if before == [] then TokenBucket(l.Cap(), now) else BucketAfter(l, before)
    ensures next == BucketAfter(l, before + [now])
    ensures allowed <==> WithinLimit(l, before + [now], |before|)
  {
    var elapsed := now - bucket.lastRefill;
    var gain := elapsed * l.rate;
    var tokens := Min(l.Cap(), bucket.tokens + gain);
    ghost var times := before + [now];
    assert tokens == Found(l.Cap(), Ticks(l, times), |before|) by {
      if before == [] {
        assert gain == 0.0;
      } else {
        ElapsedTicks(l, bucket.lastRefill, now);
        RefillFinds(l, before, now, gain);
      }
    }
    allowed := tokens >= 1.0;
    next := TokenBucket(if allowed then tokens - 1.0 else tokens, now);
    assert next == BucketAfter(l, times) by {
      BucketIs(l, before, now);
    }
    assert allowed <==> WithinLimit(l, times, |before|) by {
      VerdictIs(l, times, |before|);
      AllowedIffWithinLimit(l, times, |before|);
    }
  }

  // A key's bucket depends on its own requests alone.
  predicate BucketFits(l: Limit, buckets: map<string, TokenBucket>, trace: seq<Request>, key: string) {
    var times := Times(trace, key);
    if times == [] then key !in buckets else key in buckets && buckets[key] == BucketAfter(l, times)
  }

  ghost predicate AllFit(l: Limit, buckets: map<string, TokenBucket>, trace: seq<Request>) {
    forall key :: BucketFits(l, buckets, trace, key)
  }

  // A request lengthens its own key's readings and no other's.
  lemma TimesExtend(trace: seq<Request>, key: string, now: real)
    ensures Times(trace + [Request(key, now)], key) == Times(trace, key) + [now]
    ensures forall k :: k != key ==> Times(trace + [Request(key, now)], k) == Times(trace, k)
  {
    assert (trace + [Request(key, now)])[..|trace|] == trace;
  }

  lemma FitsExtend(l: Limit, buckets: map<string, TokenBucket>, trace: seq<Request>, r: Request, next: TokenBucket)
    requires AllFit(l, buckets, trace) && next == BucketAfter(l, Times(trace, r.key) + [r.now])
    ensures AllFit(l, buckets[r.key := next], trace + [r])
  {
    TimesExtend(trace, r.key, r.now);
    var (buckets', trace') := (buckets[r.key := next], trace + [r]);
    forall key ensures BucketFits(l, buckets', trace', key) {
      assert BucketFits(l, buckets, trace, key);
    }
  }

  // What allow does to the dictionary while it holds the lock.
  method Admit(l: Limit, buckets: map<string, TokenBucket>, key: string, now: real, ghost trace: seq<Request>)
    returns (allowed: bool, after: map<string, TokenBucket>)
    requires AllFit(l, buckets, trace)
    ensures AllFit(l, after, trace + [Request(key, now)])
    ensures allowed <==> WithinLimit(l, Times(trace, key) + [now], |Times(trace, key)|)
  {
    ghost var before := Times(trace, key);
    assert BucketFits(l, buckets, trace, key);
    var bucket := if key in buckets then buckets[key] else TokenBucket(l.Cap(), now);
    var next;
    allowed, next := Take(l, bucket, now, before);
    after := buckets[key := next];
    FitsExtend(l, buckets, trace, Request(key, now), next);
  }

  class TokenBucketLimiter {
    const limit: Limit
    var buckets: map<string, TokenBucket>
    ghost var trace: seq<Request>

    ghost predicate Valid()
      reads this
    {
      AllFit(limit, buckets, trace)
    }

    constructor (limit: Limit)
      ensures Valid() && this.limit == limit && trace == []
    {
      this.limit := limit;
      buckets := map[];
      trace := [];
    }

    // now is read before the lock is taken, so it may precede the key's last reading.
    method Allow(key: string, now: real) returns (allowed: bool)
      requires Valid()
      modifies this
      ensures Valid() && trace == old(trace) + [Request(key, now)]
      ensures var times := Times(trace, key);
        times == Times(old(trace), key) + [now] && (allowed <==> WithinLimit(limit, times, |times| - 1))
      ensures forall k :: k != key ==> Times(trace, k) == Times(old(trace), k)
    {
      allowed, buckets := Admit(limit, buckets, key, now, trace);
      trace := trace + [Request(key, now)];
      TimesExtend(old(trace), key, now);
    }
  }

  // ---- limits from the settings ---------------------------------------------------------------

  datatype LimitError = BadCount(text: string) | UnknownPeriod(text: string)

  function PeriodSeconds(period: string): (seconds: Option<int>)
    ensures seconds.Some? ==> seconds.value > 0
  {
    if period == "second" then Some(1)
    else if period == "minute" then Some(60)
    else if period == "hour" then Some(3600)
    else None
  }

  // "count/period", for a period of so many seconds.
  function PerPeriod(count: int, seconds: int): Limit
    requires seconds > 0
  {
    Limit(count, count as real / seconds as real)
  }

  function ParseLimit(limit: string): Result<Limit, LimitError> {
    var p := Partition(limit, '/');
    match ParseInt(Strip(p.head))
    case None => Err(BadCount(Strip(p.head)))
    case Some(count) => LimitPer(count, Lower(Strip(p.tail)))
  }

  function LimitPer(count: int, period: string): Result<Limit, LimitError> {
    match PeriodSeconds(period)
    case None => Err(UnknownPeriod(period))
    case Some(seconds) => Ok(PerPeriod(count, seconds))
  }

  lemma RateIs(count: int, seconds: int)
    requires seconds > 0
    ensures PerPeriod(count, seconds).rate * seconds as real == count as real
  {
  }

  // l allows count requests at once, and as many again per so many seconds.
  predicate Allows(l: Limit, count: int, seconds: real) {
    l.capacity == count && l.rate * seconds == count as real
  }

  lemma PeriodMeans(count: int, word: string)
    ensures var r := LimitPer(count, word);
      if word == "second" then r.Ok? && Allows(r.value, count, 1.0)
      else if word == "minute" then r.Ok? && Allows(r.value, count, 60.0)
      else if word == "hour" then r.Ok? && Allows(r.value, count, 3600.0)
      else r == Err(UnknownPeriod(word))
  {
    RateIs(count, 1);
    RateIs(count, 60);
    RateIs(count, 3600);
  }

  /**
   What a limit string means: the number before the first '/' is the capacity, and as many
   tokens come in a second, 60 seconds or 3600 seconds by the word after it; blanks around
   either and capitals in the word do not count. Anything else is refused.
   */
  lemma LimitMeans(head: string, tail: string)
    requires '/' !in head
    ensures var r := ParseLimit(head + ['/'] + tail); var word := Lower(Strip(tail));
      match ParseInt(Strip(head))
      case None => r == Err(BadCount(Strip(head)))
      case Some(count) =>
        if word == "second" then r.Ok? && Allows(r.value, count, 1.0)
        else if word == "minute" then r.Ok? && Allows(r.value, count, 60.0)
        else if word == "hour" then r.Ok? && Allows(r.value, count, 3600.0)
        else r == Err(UnknownPeriod(word))
  {
    PartitionJoined(head, '/', tail);
    if ParseInt(Strip(head)).Some? {
      PeriodMeans(ParseInt(Strip(head)).value, Lower(Strip(tail)));
    }
  }

  // Without a '/' there is no limit.
  lemma NoPeriod(text: string)
    requires '/' !in text
    ensures ParseLimit(text).Err?
  {
    assert !Partition(text, '/').found;
  }

  lemma PaddedLimit(count: nat, a: string, b: string, c: string, period: string, d: string)
    requires Padding(a) && Padding(b) && Padding(c) && Padding(d)
    ensures var l := ParseLimit(a + Decimal(count) + b + ['/'] + (c + period + d));
      && (period == "second" ==> l.Ok? && Allows(l.value, count, 1.0))
      && (period == "minute" ==> l.Ok? && Allows(l.value, count, 60.0))
      && (period == "hour" ==> l.Ok? && Allows(l.value, count, 3600.0))
  {
    if PeriodSeconds(period).Some? {
      ParseIntDecimal(count);
      LowerPeriod(period);
      StripPadded(a, Decimal(count), b);
      StripPadded(c, period, d);
      LimitMeans(a + Decimal(count) + b, c + period + d);
    }
  }

  lemma RateFrom(l: Limit, count: int, rate: real)
    requires Allows(l, count, 60.0) && rate * 60.0 == count as real
    ensures l == Limit(count, rate)
  {
  }

  lemma PerMinute(text: string, numeral: string, word: string, count: int, rate: real)
    requires text == numeral + ['/'] + word && Trimmed(numeral) && '/' !in numeral && word == "minute"
    requires ParseInt(numeral) == Some(count) && rate * 60.0 == count as real
    ensures ParseLimit(text) == Ok(Limit(count, rate))
  {
    LowerPeriod(word);
    LimitMeans(numeral, word);
    RateFrom(ParseLimit(text).value, count, rate);
  }

  lemma DefaultNumeral(numeral: string, count: int)
    requires (numeral, count) == ("120", 120) || (numeral, count) == ("60", 60)
    ensures ParseInt(numeral) == Some(count) && Trimmed(numeral) && '/' !in numeral
  {
    Numerals();
  }

  /** The default limits, "120/minute" and "60/minute": two tokens and one a second. */
  lemma DefaultLimit(text: string, numeral: string, word: string, count: int, rate: real)
    requires text == numeral + ['/'] + word && word == "minute"
    requires (numeral, count, rate) == ("120", 120, 2.0) || (numeral, count, rate) == ("60", 60, 1.0)
    ensures ParseLimit(text) == Ok(Limit(count, rate))
  {
    DefaultNumeral(numeral, count);
    PerMinute(text, numeral, word, count, rate);
  }

  lemma LowerWord(word: string)
    requires word == "Minute" || word == "MINUTE"
    ensures Lower(word) == "minute"
  {
  }

  // Time for one token is period/count seconds.
  lemma TokenTime(count: int, seconds: int, elapsed: real)
    requires seconds > 0 && count >= 1
    ensures PerPeriod(count, seconds).rate * elapsed >= 1.0 <==> elapsed >= seconds as real / count as real
  {
    Crosswise(count as real, seconds as real, elapsed);
  }

  lemma Crosswise(c: real, p: real, x: real)
    requires c > 0.0 && p > 0.0
    ensures (c / p) * x >= 1.0 <==> x >= p / c
  {
    var rate, slot := c / p, p / c;
    assert rate * slot == 1.0;
    if x >= slot {
      ScaleMono(rate, slot, x);
    } else {
      assert rate * (slot - x) > 0.0;
    }
  }

  /** For "count/period", whatever the count, a window admits at most count and its share of the period. */
  lemma BurstPerPeriod(count: int, seconds: int, times: seq<real>, from: real, to: real)
    requires seconds > 0
    ensures WindowBounded(PerPeriod(count, seconds), times, from, to)
  {
    if count >= 1 {
      RatePerPeriod(count, seconds);
    }
    BurstPlusRate(PerPeriod(count, seconds), times, from, to);
  }

  /** For "count/period", Retry-After is honest exactly when count is at least the period in seconds. */
  lemma RetryAfterPerPeriod(count: int, seconds: int)
    requires seconds > 0
    ensures RetryAfterHolds(PerPeriod(count, seconds)) <==> count >= seconds
  {
    RetryAfterExact(PerPeriod(count, seconds));
    if count >= 1 {
      Crosswise(count as real, seconds as real, 1.0);
      assert seconds as real / count as real <= 1.0 <==> seconds <= count;
    }
  }

  // "3/minute": three requests at once are served, a fourth is not, nor its retry after a second.
  lemma ThreeAMinute()
    ensures var times := [0.0, 0.0, 0.0, 0.0, 1.0];
      Ordered(times) && !Verdicts(PerPeriod(3, 60), times)[3] && !Verdicts(PerPeriod(3, 60), times)[4]
  {
    assert Refutation(3) == [0.0, 0.0, 0.0, 0.0, 1.0];
    RetryRefuted(PerPeriod(3, 60));
  }

  lemma LowerPeriod(period: string)
    requires PeriodSeconds(period).Some?
    ensures Lower(period) == period && Trimmed(period)
  {
    assert forall c :: c in period ==> 'a' <= c <= 'z';
  }

  /** Rendering a limit and parsing it gives the limit back. */
  lemma LimitRoundTrip(count: nat, period: string)
    requires PeriodSeconds(period).Some?
    ensures ParseLimit(Decimal(count) + ['/'] + period) == Ok(PerPeriod(count, PeriodSeconds(period).value))
    ensures var l := ParseLimit(Decimal(count) + ['/'] + period).value;
      && (period == "second" ==> Allows(l, count, 1.0))
      && (period == "minute" ==> Allows(l, count, 60.0))
      && (period == "hour" ==> Allows(l, count, 3600.0))
  {
    PeriodMeans(count, period);
    PartitionJoined(Decimal(count), '/', period);
    ParseIntDecimal(count);
    LowerPeriod(period);
  }
}
