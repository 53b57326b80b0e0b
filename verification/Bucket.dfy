/**
 The token bucket, with the clock read in tokens: a tick is what the refill rate makes
 of a clock reading. Nothing here asks the readings to be in order unless it says so.
 */
module Bucket {
  function Min(a: real, b: real): real { if a <= b then a else b }

  // Tokens that request n finds; the first request finds a full bucket.
  function Found(cap: real, ticks: seq<real>, n: nat): real
    requires n < |ticks|
    decreases n, 0
  {
    if n == 0 then cap else Min(cap, Left(cap, ticks, n - 1) + (ticks[n] - ticks[n - 1]))
  }

  // Tokens that request n leaves behind.
  function Left(cap: real, ticks: seq<real>, n: nat): real
    requires n < |ticks|
    decreases n, 1
  {
    var found := Found(cap, ticks, n);
    if found >= 1.0 then found - 1.0 else found
  }

  predicate Allowed(cap: real, ticks: seq<real>, n: nat)
    requires n < |ticks|
  {
    Found(cap, ticks, n) >= 1.0
  }

  function Decisions(cap: real, ticks: seq<real>): (d: seq<bool>)
    ensures |d| == |ticks| && forall n :: 0 <= n < |ticks| ==> d[n] == Allowed(cap, ticks, n)
  {
    seq(|ticks|, n requires 0 <= n < |ticks| => Allowed(cap, ticks, n))
  }

  // How many of the decisions i..j-1 admit their request.
  function Count(d: seq<bool>, i: nat, j: nat): nat
    requires i <= j <= |d|
    decreases j
  {
    if i == j then 0 else Count(d, i, j - 1) + if d[j - 1] then 1 else 0
  }

  // Admitting request n keeps every window that ends in it within burst plus refill.
  ghost predicate Fits(cap: real, ticks: seq<real>, d: seq<bool>, n: nat)
    requires n < |ticks| == |d|
  {
    forall i: nat :: i <= n ==> Count(d, i, n) as real + 1.0 <= cap + (ticks[n] - ticks[i])
  }

  // ---- exact characterisation -------------------------------------------------------

  // What the window from request i on leaves for request n.
  function Remainder(cap: real, ticks: seq<real>, i: nat, n: nat): real
    requires i <= n < |ticks|
  {
    cap + (ticks[n] - ticks[i]) - Count(Decisions(cap, ticks), i, n) as real
  }

  // Between two requests a window's remainder and the bucket change alike.
  lemma RemainderStep(cap: real, ticks: seq<real>, i: nat, n: nat)
    requires i < n < |ticks|
    ensures Remainder(cap, ticks, i, n) - Left(cap, ticks, n - 1) - (ticks[n] - ticks[n - 1]) ==
      Remainder(cap, ticks, i, n - 1) - Found(cap, ticks, n - 1)
  {
    var d := Decisions(cap, ticks);
    assert Count(d, i, n) == Count(d, i, n - 1) + if d[n - 1] then 1 else 0;
  }

  // The bucket holds what the tightest window leaves: at most every window's remainder,
  // and exactly that of window i.
  lemma {:induction false} FoundIsTightest(cap: real, ticks: seq<real>, n: nat) returns (i: nat)
    requires n < |ticks|
    ensures forall k: nat :: k <= n ==> Found(cap, ticks, n) <= Remainder(cap, ticks, k, n)
    ensures i <= n && Found(cap, ticks, n) == Remainder(cap, ticks, i, n)
  {
    assert Remainder(cap, ticks, n, n) == cap;
    if n == 0 {
      i := 0;
    } else {
      i := FoundIsTightest(cap, ticks, n - 1);
      forall k: nat | k < n ensures Found(cap, ticks, n) <= Remainder(cap, ticks, k, n) {
        RemainderStep(cap, ticks, k, n);
      }
      RemainderStep(cap, ticks, i, n);
      if Found(cap, ticks, n) == cap {
        i := n;
      }
    }
  }

  /**
   Exact characterisation: a request is allowed if and only if, for every earlier
   request i of its key and for itself, the requests admitted since i and this one fit
   into the burst and what was refilled since.
   */
  lemma AllowedIffFits(cap: real, ticks: seq<real>, n: nat)
    requires n < |ticks|
    ensures Allowed(cap, ticks, n) <==> Fits(cap, ticks, Decisions(cap, ticks), n)
  {
    var i := FoundIsTightest(cap, ticks, n);
    var d := Decisions(cap, ticks);
    assert Remainder(cap, ticks, i, n) == cap + (ticks[n] - ticks[i]) - Count(d, i, n) as real;
    if Allowed(cap, ticks, n) {
      forall k: nat | k <= n ensures Count(d, k, n) as real + 1.0 <= cap + (ticks[n] - ticks[k]) {
        assert Found(cap, ticks, n) <= Remainder(cap, ticks, k, n);
      }
    }
  }

  // ---- optimality ---------------------------------------------------------------------

  // A policy that admits a request only where it fits.
  ghost predicate Obeys(cap: real, ticks: seq<real>, d: seq<bool>) {
    |d| == |ticks| && forall n: nat :: n < |ticks| && d[n] ==> Fits(cap, ticks, d, n)
  }

  lemma {:induction false} CountSplit(d: seq<bool>, i: nat, j: nat)
    requires i <= j <= |d|
    ensures Count(d, 0, j) == Count(d, 0, i) + Count(d, i, j)
    decreases j
  {
    if i < j {
      CountSplit(d, i, j - 1);
    }
  }

  lemma LimiterObeys(cap: real, ticks: seq<real>)
    ensures Obeys(cap, ticks, Decisions(cap, ticks))
  {
    forall n: nat | n < |ticks| && Allowed(cap, ticks, n) ensures Fits(cap, ticks, Decisions(cap, ticks), n) {
      AllowedIffFits(cap, ticks, n);
    }
  }

  /**
   Greedy optimality: no policy that obeys the window bounds, not even one that knows
   the whole trace, has admitted more requests than the limiter at any point.
   */
  lemma {:induction false} GreedyOptimal(cap: real, ticks: seq<real>, d: seq<bool>, n: nat)
    requires Obeys(cap, ticks, d) && n <= |ticks|
    ensures Count(d, 0, n) <= Count(Decisions(cap, ticks), 0, n)
    decreases n
  {
    var g := Decisions(cap, ticks);
    if n > 0 {
      var m := n - 1;
      GreedyOptimal(cap, ticks, d, m);
      if d[m] && !g[m] {
        AllowedIffFits(cap, ticks, m);
        var i: nat :| i <= m && Count(g, i, m) as real + 1.0 > cap + (ticks[m] - ticks[i]);
        assert Fits(cap, ticks, d, m);
        GreedyOptimal(cap, ticks, d, i);
        CountSplit(d, i, m);
        CountSplit(g, i, m);
      }
    }
  }

  // ---- windows of readings, in whatever order they come ---------------------------------

  // How many of the first n requests were admitted with a reading in [a, b].
  function CountWithin(readings: seq<real>, d: seq<bool>, a: real, b: real, n: nat): nat
    requires n <= |readings| == |d|
  {
    if n == 0 then 0
    else CountWithin(readings, d, a, b, n - 1) + if d[n - 1] && a <= readings[n - 1] <= b then 1 else 0
  }

  // The first of them.
  lemma {:induction false} FirstWithin(readings: seq<real>, d: seq<bool>, a: real, b: real, n: nat) returns (i: nat)
    requires n <= |readings| == |d| && CountWithin(readings, d, a, b, n) > 0
    ensures i < n && a <= readings[i] <= b
    ensures CountWithin(readings, d, a, b, n) <= Count(d, i, n)
  {
    if CountWithin(readings, d, a, b, n - 1) > 0 {
      i := FirstWithin(readings, d, a, b, n - 1);
    } else {
      i := n - 1;
    }
  }

  // Requests with readings in [a, b] that were admitted fit into burst plus refill.
  lemma {:induction false} ReadingsWithin(cap: real, ticks: seq<real>, a: real, b: real, n: nat)
    requires n <= |ticks|
    ensures var admitted := CountWithin(ticks, Decisions(cap, ticks), a, b, n);
      admitted == 0 || admitted as real <= cap + (b - a)
  {
    var d := Decisions(cap, ticks);
    if n > 0 {
      var last := n - 1;
      if d[last] && a <= ticks[last] <= b {
        var i := FirstWithin(ticks, d, a, b, n);
        AllowedIffFits(cap, ticks, last);
        assert Count(d, i, n) == Count(d, i, last) + 1;
      } else {
        ReadingsWithin(cap, ticks, a, b, last);
      }
    }
  }

  lemma {:induction false} NothingWithin(
      cap: real, ticks: seq<real>, readings: seq<real>, a: real, b: real, n: nat)
    requires n <= |ticks| == |readings| && cap < 1.0
    ensures CountWithin(readings, Decisions(cap, ticks), a, b, n) == 0
  {
    if n > 0 {
      NothingAllowed(cap, ticks, n - 1);
      NothingWithin(cap, ticks, readings, a, b, n - 1);
    }
  }

  // ---- with a clock that does not run backwards ---------------------------------------

  ghost predicate Ordered(ticks: seq<real>) {
    forall i: nat, j: nat :: i <= j < |ticks| ==> ticks[i] <= ticks[j]
  }

  lemma {:induction false} TokensInRange(cap: real, ticks: seq<real>, n: nat)
    requires n < |ticks| && Ordered(ticks) && cap >= 0.0
    ensures 0.0 <= Left(cap, ticks, n) <= Found(cap, ticks, n) <= cap
  {
    if n > 0 {
      TokensInRange(cap, ticks, n - 1);
    }
  }

  // Every window, whatever it ends in, admits at most burst plus refill.
  lemma {:induction false} WindowBound(cap: real, ticks: seq<real>, i: nat, j: nat)
    requires i <= j < |ticks| && Ordered(ticks) && cap >= 0.0
    ensures Count(Decisions(cap, ticks), i, j + 1) as real <= cap + (ticks[j] - ticks[i])
    decreases j
  {
    var d := Decisions(cap, ticks);
    assert Count(d, i, j + 1) == Count(d, i, j) + if d[j] then 1 else 0;
    if Allowed(cap, ticks, j) {
      AllowedIffFits(cap, ticks, j);
    } else if i < j {
      WindowBound(cap, ticks, i, j - 1);
    }
  }

  // A request that comes a token later is allowed.
  lemma SpacedAllowed(cap: real, ticks: seq<real>, n: nat)
    requires n < |ticks| && Ordered(ticks) && cap >= 1.0
    requires n > 0 ==> ticks[n] - ticks[n - 1] >= 1.0
    ensures Allowed(cap, ticks, n)
  {
    if n > 0 {
      TokensInRange(cap, ticks, n - 1);
    }
  }

  // A burst at one instant takes the tokens one by one.
  lemma {:induction false} BurstDrains(cap: nat, ticks: seq<real>, n: nat)
    requires n < |ticks| && n <= cap && forall i: nat :: i <= n ==> ticks[i] == ticks[0]
    ensures Found(cap as real, ticks, n) == (cap - n) as real
  {
    if n > 0 {
      BurstDrains(cap, ticks, n - 1);
    }
  }

  lemma NothingAllowed(cap: real, ticks: seq<real>, n: nat)
    requires n < |ticks| && cap < 1.0
    ensures !Allowed(cap, ticks, n)
  {
  }

  // ---- lazy refill ----------------------------------------------------------------------

  function Kept<T>(s: seq<T>, keep: seq<bool>): (k: seq<T>)
    requires |s| == |keep|
    decreases |s|
  {
    if s == [] then []
    else
      var n := |s| - 1;
      Kept(s[..n], keep[..n]) + if keep[n] then [s[n]] else []
  }

  lemma {:induction false} PrefixSame(cap: real, a: seq<real>, b: seq<real>, n: nat)
    requires n < |a| && a <= b
    ensures Found(cap, a, n) == Found(cap, b, n) && Left(cap, a, n) == Left(cap, b, n)
  {
    if n > 0 {
      PrefixSame(cap, a, b, n - 1);
    }
  }

  // The next request finds what the last one left and the clock gained.
  lemma RefillFound(cap: real, before: seq<real>, ticks: seq<real>, n: nat, gain: real)
    requires 0 < n == |before| < |ticks| && before <= ticks && ticks[n] - ticks[n - 1] == gain
    ensures Found(cap, ticks, n) == Min(cap, Left(cap, before, n - 1) + gain)
  {
    PrefixSame(cap, before, ticks, n - 1);
  }

  lemma DecisionsExtend(cap: real, a: seq<real>, tick: real)
    ensures Decisions(cap, a + [tick]) == Decisions(cap, a) + [Allowed(cap, a + [tick], |a|)]
  {
    forall n: nat | n < |a| ensures Allowed(cap, a, n) == Allowed(cap, a + [tick], n) {
      PrefixSame(cap, a, a + [tick], n);
    }
  }

  // All that later decisions depend on: the tokens left, discounted to time zero.
  function Level(cap: real, ticks: seq<real>, n: nat): real
    requires n < |ticks|
  {
    Left(cap, ticks, n) - ticks[n]
  }

  // The kept trace leaves its bucket at the level of the full one.
  ghost predicate SameLevel(cap: real, ticks: seq<real>, kept: seq<real>) {
    cap >= 1.0 && ticks != [] ==>
      kept != [] && Level(cap, ticks, |ticks| - 1) == Level(cap, kept, |kept| - 1)
  }

  // One more request, kept or left out. A denied one leaves the level alone, because
  // a bucket that is clipped to its capacity admits.
  lemma SameLevelStep(cap: real, front: seq<real>, kept: seq<real>, tick: real, keep: bool)
    requires SameLevel(cap, front, kept) && (front == [] ==> kept == [])
    requires !keep ==> !Allowed(cap, front + [tick], |front|)
    ensures SameLevel(cap, front + [tick], if keep then kept + [tick] else kept)
    ensures keep ==> Allowed(cap, kept + [tick], |kept|) == Allowed(cap, front + [tick], |front|)
  {
    var n, m := |front|, |kept|;
    var ticks, kept' := front + [tick], kept + [tick];
    if cap < 1.0 {
      NothingAllowed(cap, ticks, n);
      NothingAllowed(cap, kept', m);
    } else if n > 0 {
      PrefixSame(cap, front, ticks, n - 1);
      PrefixSame(cap, kept, kept', m - 1);
      assert Level(cap, ticks, n - 1) == Level(cap, kept', m - 1);
      assert Found(cap, ticks, n) == Min(cap, Level(cap, ticks, n - 1) + tick);
      assert Found(cap, kept', m) == Min(cap, Level(cap, kept', m - 1) + tick);
    } else {
      assert ticks == kept';
    }
  }

  lemma KeptExtend<T>(s: seq<T>, keep: seq<bool>)
    requires |s| == |keep| > 0
    ensures var n := |s| - 1; var k := Kept(s[..n], keep[..n]);
      Kept(s, keep) == if keep[n] then k + [s[n]] else k
  {
  }

  lemma {:induction false} DroppingDenied(cap: real, ticks: seq<real>, keep: seq<bool>)
    requires |keep| == |ticks|
    requires forall n: nat :: n < |ticks| && Allowed(cap, ticks, n) ==> keep[n]
    ensures Decisions(cap, Kept(ticks, keep)) == Kept(Decisions(cap, ticks), keep)
    ensures SameLevel(cap, ticks, Kept(ticks, keep))
    decreases |ticks|
  {
    if ticks != [] {
      var n := |ticks| - 1;
      var front, tick := ticks[..n], ticks[n];
      assert ticks == front + [tick];
      DecisionsExtend(cap, front, tick);
      assert Decisions(cap, ticks)[..n] == Decisions(cap, front);
      forall i: nat | i < n && Allowed(cap, front, i) ensures keep[..n][i] {
        PrefixSame(cap, front, ticks, i);
      }
      DroppingDenied(cap, front, keep[..n]);
      var kept := Kept(front, keep[..n]);
      SameLevelStep(cap, front, kept, tick, keep[n]);
      DecisionsExtend(cap, kept, tick);
      KeptExtend(ticks, keep);
      KeptExtend(Decisions(cap, ticks), keep);
    }
  }

  /**
   Lazy refill refines a bucket that refills all the time: whichever denied requests are
   left out of a trace, every other request is decided as before.
   */
  lemma DeniedRequestsDoNotMatter(cap: real, ticks: seq<real>, keep: seq<bool>)
    requires |keep| == |ticks|
    requires forall n: nat :: n < |ticks| && !keep[n] ==> !Allowed(cap, ticks, n)
    ensures Decisions(cap, Kept(ticks, keep)) == Kept(Decisions(cap, ticks), keep)
  {
    DroppingDenied(cap, ticks, keep);
  }
}
