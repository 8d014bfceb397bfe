/**
  What an active client of the limiter gets: the exact answers to calls at one moment, and the exact rate of calls
  that is never refused. Elapsed time counts in whole intervals.
 */
module RateLimits {
  import opened Rows
  import opened RateLimiter

  // ----- Calls at one moment -----

  lemma WholeIntervals(c: Config, elapsed: int, m: nat)
    requires Usable(c) && m * c.interval <= elapsed < (m + 1) * c.interval
    ensures elapsed / c.interval == m
  {
    var q, r := elapsed / c.interval, elapsed % c.interval;
    assert elapsed == c.interval * q + r;
    if q > m { ScaledOrder(m + 1, q, c.interval); }
    if q < m { ScaledOrder(q + 1, m, c.interval); }
  }

  lemma SignOfProduct(m: nat, rate: int)
    ensures m * rate > 0 <==> m > 0 && rate > 0
  {
    if m > 0 && rate > 0 { ScaledOrder(1, m, rate); }
    if rate <= 0 { ScaledOrder(rate, 0, m); }
  }

  lemma RefillIs(c: Config, k: Bucket, t: int, m: nat)
    requires Usable(c) && (t - k.lastFill) / c.interval == m
    ensures
      var filled := k.tokens + m * c.rate;
      Refill(c, k, t) == if m > 0 && c.rate > 0 then Bucket(if filled < c.burst then filled else c.burst, t) else k
  {
    SignOfProduct(m, c.rate);
  }

  /** Calls of a client with a bucket, after `m` whole intervals: exactly the first so many are allowed. */
  lemma KnownClient(c: Config, bs: Buckets, n: nat, key: ClientKey, t: int, rest: seq<Event>, m: nat)
    requires Usable(c) && c.burst >= 0 && n > 0 && key in bs && bs[key].tokens >= 0
    requires m * c.interval <= t - bs[key].lastFill < (m + 1) * c.interval
    ensures
      var refills := m > 0 && c.rate > 0;
      var filled := bs[key].tokens + m * c.rate;
      var available := if !refills then bs[key].tokens else if filled < c.burst then filled else c.burst;
      Answers(c, bs, Calls(n, key, t) + rest) == Allowed(n, available)
        + Answers(c, bs[key := Bucket(if available > n then available - n else 0, if refills then t else bs[key].lastFill)], rest)
  {
    hide Answers, Calls, Allowed, Refill;
    WholeIntervals(c, t - bs[key].lastFill, m);
    SignOfProduct(m, c.rate);
    RefillIs(c, bs[key], t, m);
    Together(c, bs, n, key, t, rest, Refill(c, bs[key], t));
  }

  /** Calls of a client without one: exactly the first `burst`. */
  lemma NewClient(c: Config, bs: Buckets, n: nat, key: ClientKey, t: int, rest: seq<Event>)
    requires Usable(c) && c.burst >= 0 && n > 0 && key !in bs
    ensures Answers(c, bs, Calls(n, key, t) + rest) == Allowed(n, c.burst)
      + Answers(c, bs[key := Bucket(if c.burst > n then c.burst - n else 0, t)], rest)
  {
    NewBucketRefills(c, t);
    Together(c, bs, n, key, t, rest, Bucket(c.burst, t));
    hide Answers, Calls, Allowed;
  }

  // ----- The rate that is never refused -----

  /** Calls of one client at times in `[a, b]`. */
  function CallsIn(es: seq<Event>, key: ClientKey, a: int, b: int): nat {
    if es == [] then 0
    else (if es[0].Call? && es[0].key == key && a <= es[0].t <= b then 1 else 0) + CallsIn(es[1..], key, a, b)
  }

  /** In no window shorter than an interval does the client call more than `n` times. */
  ghost predicate AtMost(c: Config, es: seq<Event>, key: ClientKey, n: int) {
    forall a, b :: b - a < c.interval ==> CallsIn(es, key, a, b) <= n
  }

  /** Every call of the client is allowed. */
  predicate NeverRefused(c: Config, bs: Buckets, es: seq<Event>, key: ClientKey)
    requires Usable(c)
    decreases |es|
  {
    es == [] ||
    match es[0]
    case Cleanup(t) => NeverRefused(c, Cleaned(bs, t), es[1..], key)
    case Call(k, t) =>
      (k == key ==> AllowCall(c, bs, k, t).1) && NeverRefused(c, AllowCall(c, bs, k, t).0, es[1..], key)
  }

  /** The client's bucket covers what it still calls within an interval of its last fill. */
  ghost predicate Covers(c: Config, bs: Buckets, es: seq<Event>, key: ClientKey, from: int) {
    key in bs ==>
      && bs[key].lastFill <= from
      && bs[key].tokens >= CallsIn(es, key, bs[key].lastFill, bs[key].lastFill + c.interval - 1)
  }

  lemma AtMostLater(c: Config, es: seq<Event>, key: ClientKey, n: int)
    requires AtMost(c, es, key, n) && es != []
    ensures AtMost(c, es[1..], key, n)
  {
    forall a, b | b - a < c.interval ensures CallsIn(es[1..], key, a, b) <= n {
      assert CallsIn(es, key, a, b) <= n;
    }
  }

  /** One call of the client: allowed, and the bucket still covers what follows. */
  lemma CallCovered(c: Config, bs: Buckets, es: seq<Event>, key: ClientKey, from: int, n: int)
    requires Usable(c) && n <= c.rate && n <= c.burst && AtMost(c, es, key, n) && Covers(c, bs, es, key, from)
    requires es != [] && es[0].Call? && es[0].key == key && from <= es[0].t
    ensures AllowCall(c, bs, key, es[0].t).1
    ensures Covers(c, AllowCall(c, bs, key, es[0].t).0, es[1..], key, es[0].t)
  {
    hide Refill;
    var t := es[0].t;
    assert 1 <= CallsIn(es, key, t, t + c.interval - 1) <= n;
    if key in bs {
      ServiceFill(c, bs[key], t);
    } else {
      NewBucketRefills(c, t);
    }
  }

  /** Within an interval of its last fill a bucket stays as it is; after that it holds the rate or the burst. */
  lemma ServiceFill(c: Config, k: Bucket, t: int)
    requires Usable(c) && c.rate > 0 && k.lastFill <= t
    ensures t - k.lastFill < c.interval ==> Refill(c, k, t) == k
    ensures t - k.lastFill >= c.interval && k.tokens >= 0 ==>
      Refill(c, k, t).lastFill == t && (Refill(c, k, t).tokens >= c.rate || Refill(c, k, t).tokens >= c.burst)
  {
    hide Refill;
    var m := (t - k.lastFill) / c.interval;
    QuotientNonNegative(t - k.lastFill, c.interval);
    RefillIs(c, k, t, m);
    if t - k.lastFill >= c.interval {
      QuotientMonotone(c.interval, t - k.lastFill, c.interval);
      ScaledOrder(1, m, c.rate);
    }
  }

  lemma OtherCovered(c: Config, bs: Buckets, es: seq<Event>, key: ClientKey, from: int)
    requires Usable(c) && Covers(c, bs, es, key, from) && es != [] && from <= es[0].t
    requires es[0].Call? ==> es[0].key != key
    ensures es[0].Cleanup? ==> Covers(c, Cleaned(bs, es[0].t), es[1..], key, es[0].t)
    ensures es[0].Call? ==> Covers(c, AllowCall(c, bs, es[0].key, es[0].t).0, es[1..], key, es[0].t)
  {
    hide Refill;
  }

  lemma {:induction false} Unrefused(c: Config, bs: Buckets, es: seq<Event>, key: ClientKey, from: int, n: int)
    requires Usable(c) && n <= c.rate && n <= c.burst && AtMost(c, es, key, n) && Ordered(from, es)
    requires Covers(c, bs, es, key, from)
    ensures NeverRefused(c, bs, es, key)
    decreases |es|
  {
    hide AllowCall, Cleaned, AtMost, Covers;
    if es != [] {
      AtMostLater(c, es, key, n);
      if es[0].Call? && es[0].key == key {
        CallCovered(c, bs, es, key, from, n);
      } else {
        OtherCovered(c, bs, es, key, from);
      }
      var after := if es[0].Cleanup? then Cleaned(bs, es[0].t) else AllowCall(c, bs, es[0].key, es[0].t).0;
      Unrefused(c, after, es[1..], key, es[0].t, n);
    }
  }

  /**
    A client that never calls more often than the rate, and the burst, within an interval is never refused, whatever
    other clients and cleanups do.
   */
  lemma SteadyClientIsServed(c: Config, es: seq<Event>, key: ClientKey, from: int)
    requires Usable(c) && Ordered(from, es) && AtMost(c, es, key, if c.rate < c.burst then c.rate else c.burst)
    ensures NeverRefused(c, map[], es, key)
  {
    Unrefused(c, map[], es, key, from, if c.rate < c.burst then c.rate else c.burst);
  }

  // ----- And no higher rate is -----

  /** One call more than the rate or the burst allows, every interval, for as long as there are tokens. */
  function Drain(c: Config, tokens: int, t: int): seq<Event>
    requires Usable(c) && tokens <= c.burst
    decreases tokens
  {
    if c.rate < c.burst && tokens > c.rate > 0 then Calls(c.rate + 1, "k", t) + Drain(c, tokens - 1, t + c.interval)
    else Calls(Max0(tokens) + 1, "k", t)
  }

  lemma {:induction false} CallsInCalls(n: nat, t: int, rest: seq<Event>, a: int, b: int)
    ensures CallsIn(Calls(n, "k", t) + rest, "k", a, b) == (if a <= t <= b then n else 0) + CallsIn(rest, "k", a, b)
  {
    var es := Calls(n, "k", t) + rest;
    if n > 0 {
      CallsInCalls(n - 1, t, rest, a, b);
      assert es[1..] == Calls(n - 1, "k", t) + rest;
    } else {
      assert es == rest;
    }
  }

  /** Bursts an interval apart: a shorter window meets one of them at most. */
  lemma {:induction false} DrainIsSlow(c: Config, tokens: int, t: int, a: int, b: int)
    requires Usable(c) && 0 < c.rate && tokens <= c.burst && 0 < c.burst && b - a < c.interval
    ensures Ordered(t, Drain(c, tokens, t))
    ensures CallsIn(Drain(c, tokens, t), "k", a, b) <= if b < t then 0 else if c.rate < c.burst then c.rate + 1 else c.burst + 1
    decreases tokens
  {
    assert CallsIn([], "k", a, b) == 0;
    hide CallsIn, Calls;
    if c.rate < c.burst && tokens > c.rate {
      var later := Drain(c, tokens - 1, t + c.interval);
      DrainIsSlow(c, tokens - 1, t + c.interval, a, b);
      CallsInCalls(c.rate + 1, t, later, a, b);
      OrderedEarlier(t, t + c.interval, later);
      CallsAreCalls(c.rate + 1, "k", t, later);
    } else {
      var n := Max0(tokens) + 1;
      CallsInCalls(n, t, [], a, b);
      CallsAreCalls(n, "k", t, []);
      assert Calls(n, "k", t) + [] == Calls(n, "k", t);
    }
  }

  lemma {:induction false} AnyRefused(c: Config, bs: Buckets, n: nat, key: ClientKey, t: int, rest: seq<Event>)
    requires Usable(c) && NeverRefused(c, bs, Calls(n, key, t) + rest, key)
    ensures n <= |Answers(c, bs, Calls(n, key, t) + rest)|
    ensures forall i :: 0 <= i < n ==> Answers(c, bs, Calls(n, key, t) + rest)[i]
    decreases n
  {
    hide AllowCall;
    if n > 0 {
      var es := Calls(n, key, t) + rest;
      assert es[0] == Call(key, t) && es[1..] == Calls(n - 1, key, t) + rest;
      AnyRefused(c, AllowCall(c, bs, key, t).0, n - 1, key, t, rest);
    }
  }

  lemma {:induction false} ServedThrough(c: Config, bs: Buckets, n: nat, t: int, rest: seq<Event>, k: Bucket)
    requires Usable(c) && NeverRefused(c, bs, Calls(n, "k", t) + rest, "k")
    requires k == Refill(c, BucketOf(c, bs, "k", t), t) && k.tokens >= n > 0
    ensures NeverRefused(c, bs["k" := Bucket(k.tokens - n, k.lastFill)], rest, "k")
    decreases n
  {
    hide Refill, BucketOf;
    var es := Calls(n, "k", t) + rest;
    assert es[0] == Call("k", t) && es[1..] == Calls(n - 1, "k", t) + rest;
    var after := bs["k" := Bucket(k.tokens - 1, k.lastFill)];
    assert after == AllowCall(c, bs, "k", t).0;
    if n > 1 {
      Again(c, bs, "k", t, k);
      ServedThrough(c, after, n - 1, t, rest, Bucket(k.tokens - 1, k.lastFill));
      assert after["k" := Bucket(k.tokens - n, k.lastFill)] == bs["k" := Bucket(k.tokens - n, k.lastFill)];
    } else {
      NoCalls("k", t, rest);
    }
  }

  lemma NextFill(c: Config, tokens: int, t: int)
    requires Usable(c) && c.rate > 0 && tokens <= c.burst
    ensures Refill(c, Bucket(tokens - c.rate - 1, t), t + c.interval) == Bucket(tokens - 1, t + c.interval)
  {
    assert (t + c.interval - t) / c.interval == 1;
  }

  /** Each burst costs a token more than the interval brings back, until one call finds none. */
  lemma {:induction false} DrainRefuses(c: Config, bs: Buckets, tokens: int, t: int)
    requires Usable(c) && 0 < c.rate && 0 <= tokens <= c.burst && 0 < c.burst
    requires Refill(c, BucketOf(c, bs, "k", t), t) == Bucket(tokens, t)
    ensures !NeverRefused(c, bs, Drain(c, tokens, t), "k")
    decreases tokens
  {
    hide NeverRefused, Calls, Answers, Allowed, Refill;
    if c.rate < c.burst && tokens > c.rate {
      var n := c.rate + 1;
      var after := bs["k" := Bucket(tokens - n, t)];
      NextFill(c, tokens, t);
      DrainRefuses(c, after, tokens - 1, t + c.interval);
      if NeverRefused(c, bs, Drain(c, tokens, t), "k") {
        ServedThrough(c, bs, n, t, Drain(c, tokens - 1, t + c.interval), Bucket(tokens, t));
      }
    } else {
      var n := tokens + 1;
      assert Calls(n, "k", t) + [] == Calls(n, "k", t);
      Together(c, bs, n, "k", t, [], Bucket(tokens, t));
      if NeverRefused(c, bs, Drain(c, tokens, t), "k") {
        AnyRefused(c, bs, n, "k", t, []);
        LastIsRefused(n, tokens, Answers(c, bs["k" := Bucket(Max0(tokens - n), t)], []));
      }
    }
  }

  lemma LastIsRefused(n: nat, tokens: nat, more: seq<bool>)
    requires n == tokens + 1
    ensures |Allowed(n, tokens) + more| >= n && !(Allowed(n, tokens) + more)[tokens]
  {
  }

  /** The exact service level: `n` calls per interval are never refused, however long they go on, iff `n` is within rate and burst. */
  lemma NeverRefusedIff(c: Config, n: nat)
    requires Usable(c) && c.rate > 0 && c.burst > 0
    ensures (forall es :: Ordered(0, es) && AtMost(c, es, "k", n) ==> NeverRefused(c, map[], es, "k")) <==>
      n <= c.rate && n <= c.burst
  {
    hide AtMost, NeverRefused, Ordered, Drain;
    if n <= c.rate && n <= c.burst {
      forall es | Ordered(0, es) && AtMost(c, es, "k", n) ensures NeverRefused(c, map[], es, "k") {
        Unrefused(c, map[], es, "k", 0, n);
      }
    } else {
      NewBucketRefills(c, 0);
      DrainRefuses(c, map[], c.burst, 0);
      DrainAtMost(c, n);
    }
  }

  lemma DrainAtMost(c: Config, n: nat)
    requires Usable(c) && c.rate > 0 && c.burst > 0 && (n > c.rate || n > c.burst)
    ensures Ordered(0, Drain(c, c.burst, 0)) && AtMost(c, Drain(c, c.burst, 0), "k", n)
  {
    hide Drain;
    DrainIsSlow(c, c.burst, 0, 0, 0);
    forall a, b | b - a < c.interval ensures CallsIn(Drain(c, c.burst, 0), "k", a, b) <= n {
      DrainIsSlow(c, c.burst, 0, a, b);
    }
  }
}
