/** The token bucket in Redis, whose keys expire while idle. */
module RedisTokenBucket {
  import opened Basics
  import opened TokenBucket

  datatype Entry = Entry(bucket: Bucket, expiresAt: int)

  // ---------- The time to live ----------

  function Ceil(x: real): int { -((-x).Floor) }

  function AtLeastOne(x: real): real { if x < 1.0 then 1.0 else x }

  function TtlSeconds(c: Config): int {
    Ceil((c.maxTokens as real / AtLeastOne(c.rate)) * (c.interval / 1000.0) * 2.0) + 60
  }

  function TtlMs(c: Config): int { 1000 * TtlSeconds(c) }

  // ---------- The script ----------

  /** A missing key starts full; a stored one is refilled only if time has passed. */
  function ScriptBucket(l: Limits, stored: Option<Bucket>, now: int): Bucket {
    if stored.None? then Bucket(l.maxTokens, now)
    else if now - stored.value.lastRefill > 0 then Refilled(l, stored.value, now)
    else stored.value
  }

  function Stored(entries: map<string, Entry>, key: string): Option<Bucket> {
    if key in entries then Some(entries[key].bucket) else None
  }

  function ScriptEntry(l: Limits, ttl: int, entries: map<string, Entry>, key: string, now: int): Entry {
    Entry(Taken(ScriptBucket(l, Stored(entries, key), now)), now + ttl)
  }

  predicate ScriptAdmits(l: Limits, entries: map<string, Entry>, key: string, now: int) {
    ScriptBucket(l, Stored(entries, key), now).tokens > 0
  }

  class RedisRateLimiter {
    const config: Config
    var entries: map<string, Entry>

    constructor (config: Config)
      ensures this.config == config && entries == map[]
    {
      this.config := config;
      entries := map[];
    }

    method Consume(key: string, now: int) returns (admitted: bool)
      requires config.interval > 0.0
      modifies this
      ensures admitted == ScriptAdmits(LimitsOf(config), old(entries), key, now)
      ensures entries == old(entries)[key := ScriptEntry(LimitsOf(config), TtlMs(config), old(entries), key, now)]
    {
      var bucket := Load(key, now);
      admitted := bucket.tokens > 0;
      if admitted { bucket := bucket.(tokens := bucket.tokens - 1); }
      entries := entries[key := Entry(bucket, now + TtlMs(config))];
    }

    method Load(key: string, now: int) returns (bucket: Bucket)
      requires config.interval > 0.0
      ensures bucket == ScriptBucket(LimitsOf(config), Stored(entries, key), now)
    {
      if key !in entries { return Bucket(config.maxTokens, now); }
      bucket := entries[key].bucket;
      var elapsed := now - bucket.lastRefill;
      if elapsed > 0 {
        var tokensToAdd := ((elapsed as real / config.interval) * config.rate).Floor;
        if tokensToAdd > 0 { bucket := Bucket(Min(config.maxTokens, bucket.tokens + tokensToAdd), now); }
      }
    }
  }

  // ---------- Runs ----------

  /** A call, before which the server may have dropped the key. */
  datatype Call = Call(key: string, now: int, dropped: bool)

  function Kept(entries: map<string, Entry>, call: Call): map<string, Entry> {
    if call.dropped then entries - {call.key} else entries
  }

  function RedisNext(l: Limits, ttl: int, entries: map<string, Entry>, call: Call): map<string, Entry> {
    Kept(entries, call)[call.key := ScriptEntry(l, ttl, Kept(entries, call), call.key, call.now)]
  }

  function RedisState(l: Limits, ttl: int, calls: seq<Call>): map<string, Entry> {
    if calls == [] then map[] else RedisNext(l, ttl, RedisState(l, ttl, calls[..|calls| - 1]), calls[|calls| - 1])
  }

  function RedisAnswers(l: Limits, ttl: int, calls: seq<Call>): (answers: seq<bool>)
    ensures |answers| == |calls|
  {
    if calls == [] then []
    else
      var front, call := calls[..|calls| - 1], calls[|calls| - 1];
      RedisAnswers(l, ttl, front) + [ScriptAdmits(l, Kept(RedisState(l, ttl, front), call), call.key, call.now)]
  }

  function MemoryNext(l: Limits, buckets: map<string, Bucket>, call: Call): map<string, Bucket> {
    buckets[call.key := BucketAfter(l, Lookup(buckets, call.key), call.now)]
  }

  function MemoryState(l: Limits, calls: seq<Call>): map<string, Bucket> {
    if calls == [] then map[] else MemoryNext(l, MemoryState(l, calls[..|calls| - 1]), calls[|calls| - 1])
  }

  function MemoryAnswers(l: Limits, calls: seq<Call>): (answers: seq<bool>)
    ensures |answers| == |calls|
  {
    if calls == [] then []
    else
      var front, call := calls[..|calls| - 1], calls[|calls| - 1];
      MemoryAnswers(l, front) + [Admits(l, Lookup(MemoryState(l, front), call.key), call.now)]
  }

  ghost predicate NotBefore(calls: seq<Call>, now: int) {
    forall i :: 0 <= i < |calls| ==> calls[i].now <= now
  }

  /** The clock does not run backwards, and keys are dropped only after their time. */
  ghost predicate Legal(l: Limits, ttl: int, calls: seq<Call>) {
    calls == [] ||
    (var front, call := calls[..|calls| - 1], calls[|calls| - 1];
     && Legal(l, ttl, front)
     && NotBefore(front, call.now)
     && (call.dropped ==>
           call.key in RedisState(l, ttl, front) && RedisState(l, ttl, front)[call.key].expiresAt <= call.now))
  }

  // ---------- Expiry goes unnoticed ----------

  /** The entry matches the bucket in memory and outlives its refill by the time to live. */
  ghost predicate Matches(l: Limits, ttl: int, entry: Entry, bucket: Bucket, now: int) {
    && entry.bucket == bucket
    && 0 <= bucket.tokens <= l.maxTokens
    && bucket.lastRefill <= now
    && bucket.lastRefill + ttl <= entry.expiresAt
  }

  ghost predicate InStep(l: Limits, ttl: int, entries: map<string, Entry>, buckets: map<string, Bucket>, now: int) {
    entries.Keys == buckets.Keys && forall k :: k in entries ==> Matches(l, ttl, entries[k], buckets[k], now)
  }

  /** A bucket that has been left alone for the time to live is as good as new. */
  lemma LongIdleIsFull(l: Limits, ttl: int, b: Bucket, now: int)
    requires Earns(l) && l.maxTokens >= 1 && l.gain(ttl) >= l.maxTokens && b.tokens >= 0 && b.lastRefill + ttl <= now
    ensures Refilled(l, b, now) == Bucket(l.maxTokens, now)
  {
    assert Grows(l, ttl, now - b.lastRefill);
  }

  /** One call, with the key dropped or not, leaves the two in step and gets one answer. */
  lemma CallInStep(l: Limits, ttl: int, entries: map<string, Entry>, buckets: map<string, Bucket>, call: Call,
                   before: int)
    requires Earns(l) && l.maxTokens >= 1 && l.gain(ttl) >= l.maxTokens
    requires InStep(l, ttl, entries, buckets, before) && before <= call.now
    requires call.dropped ==> call.key in entries && entries[call.key].expiresAt <= call.now
    ensures ScriptBucket(l, Stored(Kept(entries, call), call.key), call.now)
         == Refilled(l, Current(l, Lookup(buckets, call.key), call.now), call.now)
  {
    if call.key in entries {
      assert Matches(l, ttl, entries[call.key], buckets[call.key], before);
      if call.dropped { LongIdleIsFull(l, ttl, buckets[call.key], call.now); }
    }
  }

  lemma StaysMatched(l: Limits, ttl: int, b: Bucket, now: int)
    requires Earns(l) && l.maxTokens >= 1 && 0 <= b.tokens <= l.maxTokens && b.lastRefill <= now
    ensures var r := Taken(Refilled(l, b, now)); Matches(l, ttl, Entry(r, now + ttl), r, now)
  {
  }

  lemma {:induction false} RunInStep(l: Limits, ttl: int, calls: seq<Call>, now: int)
    requires Earns(l) && l.maxTokens >= 1 && l.gain(ttl) >= l.maxTokens && Legal(l, ttl, calls) && NotBefore(calls, now)
    ensures InStep(l, ttl, RedisState(l, ttl, calls), MemoryState(l, calls), now)
    ensures RedisAnswers(l, ttl, calls) == MemoryAnswers(l, calls)
  {
    if calls != [] {
      var front, call := calls[..|calls| - 1], calls[|calls| - 1];
      RunInStep(l, ttl, front, call.now);
      var entries, buckets := RedisState(l, ttl, front), MemoryState(l, front);
      CallInStep(l, ttl, entries, buckets, call, call.now);
      AllStayMatched(l, ttl, entries, buckets, call, now);
    }
  }

  lemma AllStayMatched(l: Limits, ttl: int, entries: map<string, Entry>, buckets: map<string, Bucket>, call: Call,
                       now: int)
    requires Earns(l) && l.maxTokens >= 1 && InStep(l, ttl, entries, buckets, call.now) && call.now <= now
    requires ScriptBucket(l, Stored(Kept(entries, call), call.key), call.now)
          == Refilled(l, Current(l, Lookup(buckets, call.key), call.now), call.now)
    ensures InStep(l, ttl,
                   Kept(entries, call)[call.key := ScriptEntry(l, ttl, Kept(entries, call), call.key, call.now)],
                   buckets[call.key := BucketAfter(l, Lookup(buckets, call.key), call.now)], now)
  {
    if call.key in entries { assert Matches(l, ttl, entries[call.key], buckets[call.key], call.now); }
    StaysMatched(l, ttl, Current(l, Lookup(buckets, call.key), call.now), call.now);
    var after := Kept(entries, call)[call.key := ScriptEntry(l, ttl, Kept(entries, call), call.key, call.now)];
    var result := buckets[call.key := BucketAfter(l, Lookup(buckets, call.key), call.now)];
    forall k | k in after ensures Matches(l, ttl, after[k], result[k], now) {
      if k != call.key { assert Matches(l, ttl, entries[k], buckets[k], call.now); }
    }
  }

  // ---------- When expiry shows ----------

  /** No legal run gets different answers or leaves different buckets. */
  ghost predicate ExpiryUnobservable(l: Limits, ttl: int) {
    forall calls :: Legal(l, ttl, calls) ==>
      RedisAnswers(l, ttl, calls) == MemoryAnswers(l, calls)
      && SameBuckets(RedisState(l, ttl, calls), MemoryState(l, calls))
  }

  ghost predicate SameBuckets(entries: map<string, Entry>, buckets: map<string, Bucket>) {
    entries.Keys == buckets.Keys && forall k :: k in entries ==> entries[k].bucket == buckets[k]
  }

  /** A legal run up to now, and the states it leads to. */
  ghost predicate Reached(l: Limits, ttl: int, calls: seq<Call>,
                          entries: map<string, Entry>, buckets: map<string, Bucket>, now: int) {
    && Legal(l, ttl, calls)
    && NotBefore(calls, now)
    && RedisState(l, ttl, calls) == entries
    && MemoryState(l, calls) == buckets
  }

  lemma RunExtends(l: Limits, ttl: int, front: seq<Call>, call: Call, entries: map<string, Entry>,
                   buckets: map<string, Bucket>)
    requires Reached(l, ttl, front, entries, buckets, call.now)
    requires call.dropped ==> call.key in entries && entries[call.key].expiresAt <= call.now
    ensures Reached(l, ttl, front + [call], RedisNext(l, ttl, entries, call), MemoryNext(l, buckets, call), call.now)
    ensures RedisAnswers(l, ttl, front + [call])[|front|] == ScriptAdmits(l, Kept(entries, call), call.key, call.now)
    ensures MemoryAnswers(l, front + [call])[|front|] == Admits(l, Lookup(buckets, call.key), call.now)
  {
    var calls := front + [call];
    assert calls[..|calls| - 1] == front && calls[|calls| - 1] == call;
  }

  function Only(b: Bucket): map<string, Bucket> { map["" := b] }

  function OnlyEntry(b: Bucket, expiresAt: int): map<string, Entry> { map["" := Entry(b, expiresAt)] }

  /** A call with tokens left, at the moment of the last refill, takes one. */
  lemma CallAtRefill(l: Limits, ttl: int, tokens: nat, now: int, expiresAt: int)
    requires l.gain(0) == 0 && tokens > 0
    ensures RedisNext(l, ttl, OnlyEntry(Bucket(tokens, now), expiresAt), Call("", now, false))
         == OnlyEntry(Bucket(tokens - 1, now), now + ttl)
    ensures MemoryNext(l, Only(Bucket(tokens, now)), Call("", now, false)) == Only(Bucket(tokens - 1, now))
  {
  }

  lemma CallAtRefillAdmitted(l: Limits, tokens: nat, now: int, expiresAt: int)
    requires l.gain(0) == 0 && tokens > 0
    ensures ScriptAdmits(l, OnlyEntry(Bucket(tokens, now), expiresAt), "", now)
  {
  }

  /** So does the call that creates the bucket. */
  lemma CallCreates(l: Limits, ttl: int, entries: map<string, Entry>, call: Call)
    requires l.gain(0) == 0 && l.maxTokens >= 1 && Kept(entries, call) == map[] && call.key == ""
    ensures RedisNext(l, ttl, entries, call) == OnlyEntry(Bucket(l.maxTokens - 1, call.now), call.now + ttl)
    ensures ScriptAdmits(l, Kept(entries, call), "", call.now)
    ensures MemoryNext(l, map[], call) == Only(Bucket(l.maxTokens - 1, call.now))
  {
  }

  lemma NothingReached(l: Limits, ttl: int)
    ensures Reached(l, ttl, [], map[], map[], 0)
  {
  }

  lemma FirstOfBurst(l: Limits, ttl: int) returns (calls: seq<Call>)
    requires l.gain(0) == 0 && l.maxTokens >= 1
    ensures Reached(l, ttl, calls, OnlyEntry(Bucket(l.maxTokens - 1, 0), ttl), Only(Bucket(l.maxTokens - 1, 0)), 0)
  {
    var call := Call("", 0, false);
    NothingReached(l, ttl);
    RunExtends(l, ttl, [], call, map[], map[]);
    CallCreates(l, ttl, map[], call);
    calls := [] + [call];
  }

  lemma NextOfBurst(l: Limits, ttl: int, tokens: nat, front: seq<Call>) returns (calls: seq<Call>)
    requires l.gain(0) == 0 && tokens > 0
    requires Reached(l, ttl, front, OnlyEntry(Bucket(tokens, 0), ttl), Only(Bucket(tokens, 0)), 0)
    ensures Reached(l, ttl, calls, OnlyEntry(Bucket(tokens - 1, 0), ttl), Only(Bucket(tokens - 1, 0)), 0)
  {
    var call := Call("", 0, false);
    RunExtends(l, ttl, front, call, OnlyEntry(Bucket(tokens, 0), ttl), Only(Bucket(tokens, 0)));
    CallAtRefill(l, ttl, tokens, 0, ttl);
    calls := front + [call];
  }

  /** n calls at time zero empty the bucket step by step. */
  lemma {:induction false} Burst(l: Limits, ttl: int, n: nat) returns (calls: seq<Call>)
    requires l.gain(0) == 0 && 1 <= n <= l.maxTokens
    ensures Reached(l, ttl, calls, OnlyEntry(Bucket(l.maxTokens - n, 0), ttl), Only(Bucket(l.maxTokens - n, 0)), 0)
  {
    if n == 1 {
      calls := FirstOfBurst(l, ttl);
    } else {
      var front := Burst(l, ttl, n - 1);
      calls := NextOfBurst(l, ttl, l.maxTokens - (n - 1), front);
    }
  }

  function AtLeastZero(n: int): nat { if n < 0 then 0 else n }

  /** A bucket that time has nothing to add to. */
  lemma CallWithoutGain(l: Limits, b: Bucket, now: int)
    requires l.gain(now - b.lastRefill) == 0 && b.tokens >= 0
    ensures BucketAfter(l, Some(b), now) == b.(tokens := AtLeastZero(b.tokens - 1))
    ensures Admits(l, Some(b), now) <==> b.tokens > 0
  {
  }

  /** The first call after the time to live, on the bucket that the burst emptied. */
  lemma CallAfterIdle(l: Limits, ttl: int)
    requires l.gain(0) == 0 && 0 <= l.gain(ttl) < l.maxTokens
    ensures var b := BucketAfter(l, Some(Bucket(0, 0)), ttl);
            b.tokens == AtLeastZero(l.gain(ttl) - 1) && l.gain(ttl - b.lastRefill) == 0
    ensures Admits(l, Some(Bucket(0, 0)), ttl) <==> l.gain(ttl) >= 1
  {
  }

  /** What n of the later calls have left in memory. */
  ghost predicate LeftOver(l: Limits, ttl: int, n: nat, b: Bucket) {
    b.tokens == AtLeastZero(l.gain(ttl) - n) && l.gain(ttl - b.lastRefill) == 0
  }

  /** After a burst, n calls at the moment the key may be dropped: in Redis every one of them is
      admitted, in memory only as many as the idle time has earned. */
  lemma {:induction false} Probe(l: Limits, ttl: int, n: nat) returns (calls: seq<Call>, b: Bucket)
    requires l.gain(0) == 0 && 0 <= l.gain(ttl) < l.maxTokens && ttl >= 0 && 1 <= n <= l.maxTokens
    ensures Reached(l, ttl, calls, OnlyEntry(Bucket(l.maxTokens - n, ttl), ttl + ttl), Only(b), ttl)
    ensures LeftOver(l, ttl, n, b)
    ensures calls != [] && RedisAnswers(l, ttl, calls)[|calls| - 1]
    ensures n > l.gain(ttl) ==> !MemoryAnswers(l, calls)[|calls| - 1]
  {
    if n == 1 {
      calls, b := FirstProbe(l, ttl);
    } else {
      var front, before := Probe(l, ttl, n - 1);
      calls, b := NextProbe(l, ttl, n, front, before);
    }
  }

  lemma FirstProbe(l: Limits, ttl: int) returns (calls: seq<Call>, b: Bucket)
    requires l.gain(0) == 0 && 0 <= l.gain(ttl) < l.maxTokens && ttl >= 0
    ensures Reached(l, ttl, calls, OnlyEntry(Bucket(l.maxTokens - 1, ttl), ttl + ttl), Only(b), ttl)
    ensures LeftOver(l, ttl, 1, b)
    ensures calls != [] && RedisAnswers(l, ttl, calls)[|calls| - 1]
    ensures l.gain(ttl) < 1 ==> !MemoryAnswers(l, calls)[|calls| - 1]
  {
    var empty, call := Bucket(0, 0), Call("", ttl, true);
    var front := Burst(l, ttl, l.maxTokens);
    RunExtends(l, ttl, front, call, OnlyEntry(empty, ttl), Only(empty));
    CallCreates(l, ttl, OnlyEntry(empty, ttl), call);
    CallAfterIdle(l, ttl);
    calls, b := front + [call], BucketAfter(l, Some(empty), ttl);
  }

  lemma NextProbe(l: Limits, ttl: int, n: nat, front: seq<Call>, before: Bucket) returns (calls: seq<Call>, b: Bucket)
    requires l.gain(0) == 0 && 0 <= l.gain(ttl) < l.maxTokens && 2 <= n <= l.maxTokens
    requires Reached(l, ttl, front, OnlyEntry(Bucket(l.maxTokens - n + 1, ttl), ttl + ttl), Only(before), ttl)
    requires LeftOver(l, ttl, n - 1, before)
    ensures Reached(l, ttl, calls, OnlyEntry(Bucket(l.maxTokens - n, ttl), ttl + ttl), Only(b), ttl)
    ensures LeftOver(l, ttl, n, b)
    ensures calls != [] && RedisAnswers(l, ttl, calls)[|calls| - 1]
    ensures n > l.gain(ttl) ==> !MemoryAnswers(l, calls)[|calls| - 1]
  {
    var left, call := l.maxTokens - n + 1, Call("", ttl, false);
    RunExtends(l, ttl, front, call, OnlyEntry(Bucket(left, ttl), ttl + ttl), Only(before));
    CallAtRefill(l, ttl, left, ttl, ttl + ttl);
    CallAtRefillAdmitted(l, left, ttl, ttl + ttl);
    CallWithoutGain(l, before, ttl);
    calls, b := front + [call], before.(tokens := AtLeastZero(before.tokens - 1));
  }

  /** The dropping of keys cannot be observed, in any answer or bucket of any run, exactly when
      the time to live earns a full bucket. */
  lemma ExpiryUnobservableExactly(l: Limits, ttl: int)
    requires Earns(l) && l.maxTokens >= 1 && ttl >= 0
    ensures ExpiryUnobservable(l, ttl) <==> l.gain(ttl) >= l.maxTokens
  {
    if l.gain(ttl) >= l.maxTokens {
      forall calls | Legal(l, ttl, calls)
        ensures RedisAnswers(l, ttl, calls) == MemoryAnswers(l, calls)
             && SameBuckets(RedisState(l, ttl, calls), MemoryState(l, calls))
      {
        NeverSplit(l, ttl, calls);
      }
    } else {
      assert Grows(l, 0, ttl);
      var calls, b := Probe(l, ttl, l.maxTokens);
      assert RedisAnswers(l, ttl, calls) != MemoryAnswers(l, calls);
    }
  }

  lemma NeverSplit(l: Limits, ttl: int, calls: seq<Call>)
    requires Earns(l) && l.maxTokens >= 1 && l.gain(ttl) >= l.maxTokens && Legal(l, ttl, calls)
    ensures RedisAnswers(l, ttl, calls) == MemoryAnswers(l, calls)
             && SameBuckets(RedisState(l, ttl, calls), MemoryState(l, calls))
  {
    var now := Latest(calls);
    RunInStep(l, ttl, calls, now);
    forall k | k in RedisState(l, ttl, calls) ensures RedisState(l, ttl, calls)[k].bucket == MemoryState(l, calls)[k] {
      assert Matches(l, ttl, RedisState(l, ttl, calls)[k], MemoryState(l, calls)[k], now);
    }
  }

  lemma {:induction false} Latest(calls: seq<Call>) returns (now: int)
    ensures NotBefore(calls, now)
  {
    now := 0;
    if calls != [] {
      var last := calls[|calls| - 1].now;
      now := Latest(calls[..|calls| - 1]);
      if now < last { now := last; }
      assert forall i :: 0 <= i < |calls| - 1 ==> calls[i] == calls[..|calls| - 1][i];
    }
  }

  // ---------- The time to live that the script sets ----------

  lemma CeilAbove(x: real)
    ensures Ceil(x) as real >= x
  {
  }

  lemma Undo(a: real, b: real)
    requires b > 0.0
    ensures (a / b) * b == a
  {
  }

  lemma ScaleUp(u: real, interval: real, ms: real)
    requires interval > 0.0 && ms >= u * (interval / 1000.0) * 2.0 * 1000.0
    ensures ms / interval >= u * 2.0
  {
    var part := interval / 1000.0;
    assert part * 1000.0 == interval;
    assert u * part * 2.0 * 1000.0 == u * 2.0 * (part * 1000.0);
    AtLeastQuotient(ms, u * 2.0, interval);
  }

  lemma AtLeastQuotient(ms: real, y: real, interval: real)
    requires interval > 0.0 && ms >= y * interval
    ensures ms / interval >= y
  {
    Undo(ms, interval);
    if ms / interval < y { Below(ms / interval, y, interval); }
  }

  lemma Below(x: real, y: real, c: real)
    requires x < y && c > 0.0
    ensures x * c < y * c
  {
  }

  lemma AtLeastProduct(x: real, y: real, c: real)
    requires x >= y && c > 0.0
    ensures x * c >= y * c
  {
  }

  /** At one token per interval or more, the time to live earns a full bucket. */
  lemma TtlEarnsFull(c: Config)
    requires c.interval > 0.0 && c.rate >= 1.0 && c.maxTokens >= 1
    ensures LimitsOf(c).gain(TtlMs(c)) >= c.maxTokens && TtlMs(c) >= 0
  {
    var max := c.maxTokens as real;
    var u := max / c.rate;
    var part := c.interval / 1000.0;
    Undo(max, c.rate);
    var q := u * part * 2.0;
    CeilAbove(q);
    NonNegativeProduct(u, part);
    var ms := TtlMs(c) as real;
    TtlInMilliseconds(c, q);
    ScaleUp(u, c.interval, ms);
    AtLeastProduct(ms / c.interval, u * 2.0, c.rate);
    DoubleOf(u, c.rate, max);
  }

  lemma DoubleOf(u: real, rate: real, max: real)
    requires u * rate == max
    ensures u * 2.0 * rate == 2.0 * max
  {
  }

  lemma NonNegativeProduct(u: real, part: real)
    requires u >= 0.0 && part >= 0.0
    ensures u * part >= 0.0
  {
  }

  lemma TtlInMilliseconds(c: Config, q: real)
    requires c.interval > 0.0 && c.rate >= 1.0
    requires q == (c.maxTokens as real / c.rate) * (c.interval / 1000.0) * 2.0
    ensures TtlMs(c) as real >= q * 1000.0
    ensures q >= 0.0 ==> TtlMs(c) >= 0
  {
    CeilAbove(q);
    assert TtlSeconds(c) == Ceil(q) + 60;
    assert TtlMs(c) as real == 1000.0 * TtlSeconds(c) as real;
  }

  lemma TtlIsPositive(c: Config)
    requires c.interval > 0.0 && c.maxTokens >= 0
    ensures TtlSeconds(c) >= 60
  {
    var u, part := c.maxTokens as real / AtLeastOne(c.rate), c.interval / 1000.0;
    QuotientNonNegative(c.maxTokens as real, AtLeastOne(c.rate));
    NonNegativeProduct(u, part);
    CeilAbove(u * part * 2.0);
  }

  /** The limiter in Redis answers every run exactly like the one in memory, exactly when its
      time to live earns a full bucket; a rate of one or more is enough. */
  lemma RedisAnswersLikeMemory(c: Config)
    requires c.interval > 0.0 && c.rate >= 0.0 && c.maxTokens >= 1
    ensures ExpiryUnobservable(LimitsOf(c), TtlMs(c)) <==> Credit(c, TtlMs(c)).Floor >= c.maxTokens
    ensures c.rate >= 1.0 ==> ExpiryUnobservable(LimitsOf(c), TtlMs(c))
  {
    RateEarns(c);
    TtlIsPositive(c);
    ExpiryUnobservableExactly(LimitsOf(c), TtlMs(c));
    if c.rate >= 1.0 { TtlEarnsFull(c); }
  }

  /** At a slow rate expiry shows: a bucket of ten that earns one token in ten seconds is full
      again after its eighty seconds, though it has earned only eight. */
  lemma SlowRateShows()
    ensures var c := Config(10, 0.1, 1000.0); TtlMs(c) == 80000 && !ExpiryUnobservable(LimitsOf(c), TtlMs(c))
  {
    var c := Config(10, 0.1, 1000.0);
    assert TtlSeconds(c) == 80;
    assert Credit(c, 80000) == 8.0;
    RedisAnswersLikeMemory(c);
  }
}
