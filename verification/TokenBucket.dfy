/** The token bucket limiter in memory, and how many calls it can ever admit. */
module TokenBucket {
  import opened Basics

  /** Times are in milliseconds; a bucket gains rate tokens per interval. */
  datatype Config = Config(maxTokens: int, rate: real, interval: real)

  datatype Bucket = Bucket(tokens: int, lastRefill: int)

  /** The tokens earned over a time, before rounding down. */
  function Credit(c: Config, elapsed: int): real
    requires c.interval > 0.0
  {
    (elapsed as real / c.interval) * c.rate
  }

  /** What the bucket arithmetic depends on: the capacity, and the whole tokens a time earns. */
  datatype Limits = Limits(maxTokens: int, gain: int -> int)

  function LimitsOf(c: Config): Limits
    requires c.interval > 0.0
  {
    Limits(c.maxTokens, elapsed => Credit(c, elapsed).Floor)
  }

  /** The stored bucket, or a full one. */
  function Current(l: Limits, stored: Option<Bucket>, now: int): Bucket {
    if stored.Some? then stored.value else Bucket(l.maxTokens, now)
  }

  function Refilled(l: Limits, b: Bucket, now: int): Bucket
  {
    var gain := l.gain(now - b.lastRefill);
    if gain > 0 then Bucket(Min(l.maxTokens, b.tokens + gain), now) else b
  }

  function Taken(b: Bucket): Bucket { if b.tokens > 0 then b.(tokens := b.tokens - 1) else b }

  /** The bucket after a call, and whether the call was admitted. */
  function BucketAfter(l: Limits, stored: Option<Bucket>, now: int): Bucket
  {
    Taken(Refilled(l, Current(l, stored, now), now))
  }

  predicate Admits(l: Limits, stored: Option<Bucket>, now: int)
  {
    Refilled(l, Current(l, stored, now), now).tokens > 0
  }

  class TokenBucketRateLimiter {
    const config: Config
    var buckets: map<string, Bucket>

    constructor (config: Config)
      ensures this.config == config && buckets == map[]
    {
      this.config := config;
      buckets := map[];
    }

    method TokensToAdd(elapsed: int) returns (tokens: int)
      requires config.interval > 0.0
      ensures tokens == LimitsOf(config).gain(elapsed)
    {
      tokens := ((elapsed as real / config.interval) * config.rate).Floor;
    }

    method Consume(key: string, now: int) returns (admitted: bool)
      requires config.interval > 0.0
      modifies this
      ensures admitted == Admits(LimitsOf(config), Lookup(old(buckets), key), now)
      ensures buckets == old(buckets)[key := BucketAfter(LimitsOf(config), Lookup(old(buckets), key), now)]
    {
      ghost var before, l := buckets, LimitsOf(config);
      if key !in buckets { buckets := buckets[key := Bucket(config.maxTokens, now)]; }
      assert buckets == before[key := Current(l, Lookup(before, key), now)];
      var tokensToAdd := TokensToAdd(now - buckets[key].lastRefill);
      if tokensToAdd > 0 {
        buckets := buckets[key := Bucket(Min(config.maxTokens, buckets[key].tokens + tokensToAdd), now)];
      }
      assert buckets == before[key := Refilled(l, Current(l, Lookup(before, key), now), now)];
      admitted := buckets[key].tokens > 0;
      if admitted { buckets := buckets[key := buckets[key].(tokens := buckets[key].tokens - 1)]; }
    }
  }

  // ---------- Earning tokens ----------

  lemma Distribute(a: real, b: real, c: real)
    ensures (a + b) * c == a * c + b * c
  {
  }

  lemma CreditAdds(c: Config, a: int, b: int)
    requires c.interval > 0.0
    ensures Credit(c, a) + Credit(c, b) == Credit(c, a + b)
  {
    AddFractions(a as real, b as real, c.interval);
    Distribute(a as real / c.interval, b as real / c.interval, c.rate);
  }

  lemma CreditNonNegative(c: Config, elapsed: int)
    requires c.interval > 0.0 && c.rate >= 0.0 && elapsed >= 0
    ensures Credit(c, elapsed) >= 0.0
  {
    assert elapsed as real / c.interval >= 0.0;
  }

  /** Rounding down twice earns no more than rounding down once, and at most one less. */
  ghost predicate Adds(l: Limits, a: int, b: int) {
    l.gain(a) + l.gain(b) <= l.gain(a + b) <= l.gain(a) + l.gain(b) + 1
  }

  ghost predicate Grows(l: Limits, a: int, b: int) { a <= b ==> l.gain(a) <= l.gain(b) }

  /** No time earns nothing, and longer never earns less. */
  ghost predicate Earns(l: Limits) {
    && l.gain(0) == 0
    && (forall a, b :: Grows(l, a, b))
    && forall a, b :: Adds(l, a, b)
  }

  lemma RateEarns(c: Config)
    requires c.interval > 0.0 && c.rate >= 0.0
    ensures Earns(LimitsOf(c))
  {
    assert 0.0 / c.interval == 0.0;
    forall a, b ensures Adds(LimitsOf(c), a, b) { CreditAdds(c, a, b); }
    forall a, b ensures Grows(LimitsOf(c), a, b) { RateGrows(c, a, b); }
  }

  lemma RateGrows(c: Config, a: int, b: int)
    requires c.interval > 0.0 && c.rate >= 0.0
    ensures Grows(LimitsOf(c), a, b)
  {
    if a <= b {
      CreditAdds(c, a, b - a);
      CreditNonNegative(c, b - a);
    }
  }

  // ---------- How much is admitted ----------

  /** The clock never runs backwards. */
  ghost predicate Ascending(times: seq<int>) {
    forall i, j :: 0 <= i < j < |times| ==> times[i] <= times[j]
  }

  /** The bucket of one key after calls at the given times. */
  function AfterCalls(l: Limits, stored: Option<Bucket>, times: seq<int>): Option<Bucket>
  {
    if times == [] then stored
    else Some(BucketAfter(l, AfterCalls(l, stored, times[..|times| - 1]), times[|times| - 1]))
  }

  function Admitted(l: Limits, stored: Option<Bucket>, times: seq<int>): nat
  {
    if times == [] then 0
    else
      Admitted(l, stored, times[..|times| - 1])
      + if Admits(l, AfterCalls(l, stored, times[..|times| - 1]), times[|times| - 1]) then 1 else 0
  }

  /** Every call after the first finds the bucket with its last refill not in the future. */
  lemma {:induction false} CallsSpend(l: Limits, b: Bucket, times: seq<int>)
    requires Earns(l) && l.maxTokens >= 0 && b.tokens >= 0
    ensures var after := AfterCalls(l, Some(b), times);
            after.Some? && after.value.tokens >= 0
            && Admitted(l, Some(b), times) + after.value.tokens
               <= b.tokens + l.gain(after.value.lastRefill - b.lastRefill)
  {
    if times == [] {

    } else {
      var front, now := times[..|times| - 1], times[|times| - 1];
      CallsSpend(l, b, front);
      var before := AfterCalls(l, Some(b), front).value;
      assert Adds(l, before.lastRefill - b.lastRefill, now - before.lastRefill);
    }
  }

  lemma {:induction false} LastRefillBounded(l: Limits, b: Bucket, times: seq<int>, last: int)
    requires Earns(l) && b.lastRefill <= last && Until(times, last)
    ensures AfterCalls(l, Some(b), times).Some? && AfterCalls(l, Some(b), times).value.lastRefill <= last
  {
    if times != [] { LastRefillBounded(l, b, times[..|times| - 1], last); }
  }

  lemma LastIsLatest(times: seq<int>)
    requires Ascending(times) && times != []
    ensures times[0] <= times[|times| - 1] && Until(times, times[|times| - 1])
  {
  }

  /** A run from no bucket is a run from a full one created by the first call. */
  lemma {:induction false} CreatedFull(l: Limits, times: seq<int>)
    requires Earns(l) && times != []
    ensures AfterCalls(l, None, times) == AfterCalls(l, Some(Bucket(l.maxTokens, times[0])), times)
    ensures Admitted(l, None, times) == Admitted(l, Some(Bucket(l.maxTokens, times[0])), times)
  {
    if |times| > 1 {
      CreatedFull(l, times[..|times| - 1]);
    } else {
      assert times[..0] == [];
    }
  }

  /** Since the bucket was created at least maxTokens have been there to spend, and no more than
      what the elapsed time earns on top of them has been admitted. */
  lemma AdmissionBound(l: Limits, times: seq<int>)
    requires Earns(l) && l.maxTokens >= 0 && Ascending(times) && times != []
    ensures Admitted(l, None, times) <= l.maxTokens + l.gain(times[|times| - 1] - times[0])
  {
    var full := Bucket(l.maxTokens, times[0]);
    LastIsLatest(times);
    CreatedFull(l, times);
    SpentByLast(l, full, times, times[|times| - 1]);
  }

  ghost predicate Until(times: seq<int>, last: int) {
    forall i :: 0 <= i < |times| ==> times[i] <= last
  }

  /** The calls of a run, against the time from the last refill before it to its end. */
  lemma SpentByLast(l: Limits, b: Bucket, times: seq<int>, last: int)
    requires Earns(l) && l.maxTokens >= 0 && Until(times, last)
    requires b.tokens >= 0 && b.lastRefill <= last
    ensures Admitted(l, Some(b), times) <= b.tokens + l.gain(last - b.lastRefill)
  {
    CallsSpend(l, b, times);
    LastRefillBounded(l, b, times, last);
    assert Grows(l, AfterCalls(l, Some(b), times).value.lastRefill - b.lastRefill, last - b.lastRefill);
  }

  lemma RefilledTwice(l: Limits, b: Bucket, now: int)
    requires Earns(l)
    ensures Refilled(l, Refilled(l, b, now), now) == Refilled(l, b, now)
  {
  }

  lemma {:induction false} RefillFirst(l: Limits, b: Bucket, times: seq<int>)
    requires Earns(l) && times != []
    ensures AfterCalls(l, Some(b), times) == AfterCalls(l, Some(Refilled(l, b, times[0])), times)
    ensures Admitted(l, Some(b), times) == Admitted(l, Some(Refilled(l, b, times[0])), times)
  {
    if |times| > 1 {
      RefillFirst(l, b, times[..|times| - 1]);
    } else {
      assert times[..0] == [];
      RefilledTwice(l, b, times[0]);
    }
  }

  lemma {:induction false} NothingToSpend(l: Limits, b: Bucket, times: seq<int>)
    requires Earns(l) && l.maxTokens <= 0 && b.tokens <= 0
    ensures AfterCalls(l, Some(b), times).Some? && AfterCalls(l, Some(b), times).value.tokens <= 0
    ensures Admitted(l, Some(b), times) == 0
  {
    if times != [] { NothingToSpend(l, b, times[..|times| - 1]); }
  }

  /** A bucket that has been called before is never full, unless it holds nothing at all. */
  lemma {:induction false} NeverFull(l: Limits, times: seq<int>, last: int)
    requires Earns(l) && l.maxTokens >= 0 && times != [] && Until(times, last)
    ensures var b := AfterCalls(l, None, times);
            b.Some? && 0 <= b.value.tokens <= l.maxTokens && (b.value.tokens < l.maxTokens || l.maxTokens == 0)
            && b.value.lastRefill <= last
  {
    if |times| > 1 {
      NeverFull(l, times[..|times| - 1], last);
    } else {
      assert times[..0] == [];
    }
  }

  /** What there is to spend from s on, if the bucket was not full before. */
  lemma RefilledBound(l: Limits, b: Bucket, s: int, last: int)
    requires Earns(l) && l.maxTokens > 0 && s <= last
    requires 0 <= b.tokens < l.maxTokens && b.lastRefill <= s
    ensures var r := Refilled(l, b, s);
            r.tokens >= 0 && r.lastRefill <= last
            && r.tokens + l.gain(last - r.lastRefill) <= l.maxTokens + l.gain(last - s)
  {
    assert Adds(l, s - b.lastRefill, last - s);
  }

  lemma WindowFrom(l: Limits, b: Bucket, window: seq<int>, last: int)
    requires Earns(l) && l.maxTokens > 0 && window != [] && Until(window, last)
    requires 0 <= b.tokens < l.maxTokens && b.lastRefill <= window[0]
    ensures Admitted(l, Some(b), window) <= l.maxTokens + l.gain(last - window[0])
  {
    assert window[0] <= last;
    RefilledBound(l, b, window[0], last);
    RefillFirst(l, b, window);
    SpentByLast(l, Refilled(l, b, window[0]), window, last);
  }

  /** In any window, whatever was called before, no more than maxTokens plus what the window
      itself earns is admitted. */
  lemma WindowBound(l: Limits, past: seq<int>, window: seq<int>)
    requires Earns(l) && l.maxTokens >= 0 && Ascending(past + window) && window != []
    ensures Admitted(l, AfterCalls(l, None, past), window) <= l.maxTokens + l.gain(window[|window| - 1] - window[0])
  {
    var times := past + window;
    assert Ascending(window) by {
      forall i, j | 0 <= i < j < |window| ensures window[i] <= window[j] {
        assert times[|past| + i] <= times[|past| + j];
      }
    }
    LastIsLatest(window);
    if past == [] {
      AdmissionBound(l, window);
    } else {
      forall i | 0 <= i < |past| ensures past[i] <= window[0] { assert times[i] <= times[|past|]; }
      NeverFull(l, past, window[0]);
      var b := AfterCalls(l, None, past).value;
      if l.maxTokens == 0 {
        NothingToSpend(l, b, window);
        assert Grows(l, 0, window[|window| - 1] - window[0]);
      } else {
        WindowFrom(l, b, window, window[|window| - 1]);
      }
    }
  }

  /** The bound since creation is met: maxTokens calls at one moment are all admitted. */
  lemma {:induction false} BurstIsAdmitted(l: Limits, now: int, n: nat)
    requires Earns(l) && n <= l.maxTokens
    ensures Admitted(l, None, Moments(now, n)) == n
    ensures n > 0 ==> AfterCalls(l, None, Moments(now, n)) == Some(Bucket(l.maxTokens - n, now))
  {
    if n > 0 {
      BurstIsAdmitted(l, now, n - 1);
      assert Moments(now, n)[..n - 1] == Moments(now, n - 1);
    }
  }

  function Moments(now: int, n: nat): (times: seq<int>)
    ensures |times| == n
  {
    seq(n, _ => now)
  }

  // ---------- For a configured rate ----------

  /** Since a bucket's creation at most maxTokens plus the tokens earned since are admitted. */
  lemma RateAdmissionBound(c: Config, times: seq<int>)
    requires c.interval > 0.0 && c.rate >= 0.0 && c.maxTokens >= 0 && Ascending(times) && times != []
    ensures Admitted(LimitsOf(c), None, times) <= c.maxTokens + Credit(c, times[|times| - 1] - times[0]).Floor
  {
    RateEarns(c);
    AdmissionBound(LimitsOf(c), times);
  }

  /** In any window at most maxTokens plus the tokens earned within it are admitted. */
  lemma RateWindowBound(c: Config, past: seq<int>, window: seq<int>)
    requires c.interval > 0.0 && c.rate >= 0.0 && c.maxTokens >= 0 && Ascending(past + window) && window != []
    ensures Admitted(LimitsOf(c), AfterCalls(LimitsOf(c), None, past), window)
         <= c.maxTokens + Credit(c, window[|window| - 1] - window[0]).Floor
  {
    RateEarns(c);
    WindowBound(LimitsOf(c), past, window);
  }

  /** One call, in numbers: the key's bucket, or a full one, is topped up by the whole tokens that the
      time since its last refill earned, never above capacity; the call takes one if there is one. */
  lemma CallExactly(c: Config, buckets: map<string, Bucket>, key: string, now: int)
    requires c.interval > 0.0
    ensures var l := LimitsOf(c);
            var before := if key in buckets then buckets[key] else Bucket(c.maxTokens, now);
            var earned := ((now - before.lastRefill) as real / c.interval * c.rate).Floor;
            var tokens := if earned <= 0 then before.tokens
                          else if before.tokens + earned > c.maxTokens then c.maxTokens else before.tokens + earned;
            && Admits(l, Lookup(buckets, key), now) == (tokens > 0)
            && BucketAfter(l, Lookup(buckets, key), now)
               == Bucket(if tokens > 0 then tokens - 1 else tokens, if earned > 0 then now else before.lastRefill)
  {
  }

  /** Consecutive times are at least this far apart. */
  ghost predicate Spaced(times: seq<int>, gap: int) {
    forall i :: 0 < i < |times| ==> times[i] - times[i - 1] >= gap
  }

  /** A caller that waits long enough to earn a token each time is never refused. */
  lemma {:induction false} SpacedCallsAdmitted(l: Limits, times: seq<int>, gap: int)
    requires Earns(l) && l.maxTokens >= 1 && gap >= 0 && l.gain(gap) >= 1 && Spaced(times, gap)
    ensures Admitted(l, None, times) == |times|
    ensures times != [] ==>
              var b := AfterCalls(l, None, times);
              b.Some? && b.value.tokens >= 0 && b.value.lastRefill <= times[|times| - 1]
  {
    if |times| > 0 {
      var n := |times| - 1;
      SpacedCallsAdmitted(l, times[..n], gap);
      if n > 0 {
        var b := AfterCalls(l, None, times[..n]).value;
        assert times[..n][n - 1] == times[n - 1] && times[n] - b.lastRefill >= gap;
        assert Grows(l, gap, times[n] - b.lastRefill);
      }
    }
  }

  lemma RateSpacedCallsAdmitted(c: Config, times: seq<int>, gap: int)
    requires c.interval > 0.0 && c.rate >= 0.0 && c.maxTokens >= 1 && gap >= 0 && Spaced(times, gap)
    requires gap as real / c.interval * c.rate >= 1.0
    ensures Admitted(LimitsOf(c), None, times) == |times|
  {
    RateEarns(c);
    SpacedCallsAdmitted(LimitsOf(c), times, gap);
  }
}
