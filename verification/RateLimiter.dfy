/** The keyed token bucket of the request limiter, with its background cleanup. Times are nanoseconds. */
module RateLimiter {
  import opened Rows

  type ClientKey = string

  const STALE_AFTER := 600_000_000_000

  /** `rate` tokens per whole `interval` since the last refill, at most `burst`. */
  datatype Config = Config(rate: int, interval: int, burst: int)

  datatype Bucket = Bucket(tokens: int, lastFill: int)

  type Buckets = map<ClientKey, Bucket>

  predicate Usable(c: Config) {
    c.interval > 0
  }

  function Refill(c: Config, b: Bucket, now: int): Bucket
    requires Usable(c)
  {
    var tokensToAdd := (now - b.lastFill) / c.interval * c.rate;
    if tokensToAdd <= 0 then b
    else Bucket(if b.tokens + tokensToAdd > c.burst then c.burst else b.tokens + tokensToAdd, now)
  }

  function BucketOf(c: Config, bs: Buckets, key: ClientKey, now: int): Bucket {
    if key in bs then bs[key] else Bucket(c.burst, now)
  }

  function Take(b: Bucket): (Bucket, bool) {
    if b.tokens > 0 then (b.(tokens := b.tokens - 1), true) else (b, false)
  }

  function AllowCall(c: Config, bs: Buckets, key: ClientKey, now: int): (Buckets, bool)
    requires Usable(c)
  {
    var (b, allowed) := Take(Refill(c, BucketOf(c, bs, key, now), now));
    (bs[key := b], allowed)
  }

  function Cleaned(bs: Buckets, now: int): Buckets {
    map key | key in bs && now - bs[key].lastFill <= STALE_AFTER :: bs[key]
  }

  class Limiter {
    var buckets: Buckets
    const config: Config

    constructor (rate: int, interval: int, burst: int)
      ensures config == Config(rate, interval, burst) && buckets == map[]
    {
      config, buckets := Config(rate, interval, burst), map[];
    }

    method Allow(key: ClientKey, now: int) returns (allowed: bool)
      requires Usable(config)
      modifies this
      ensures (buckets, allowed) == AllowCall(config, old(buckets), key, now)
    {
      if key !in buckets { buckets := buckets[key := Bucket(config.burst, now)]; }
      var b := buckets[key];
      var tokensToAdd := (now - b.lastFill) / config.interval * config.rate;
      if tokensToAdd > 0 {
        b := b.(tokens := b.tokens + tokensToAdd);
        if b.tokens > config.burst { b := b.(tokens := config.burst); }
        b := b.(lastFill := now);
      }
      allowed := b.tokens > 0;
      if allowed { b := b.(tokens := b.tokens - 1); }
      buckets := buckets[key := b];
      assert buckets == old(buckets)[key := b];
    }

    method CleanupStale(now: int)
      modifies this
      ensures buckets == Cleaned(old(buckets), now)
    {
      var staleKeys := {};
      var unseen := buckets.Keys;
      while unseen != {}
        invariant unseen <= buckets.Keys && buckets == old(buckets)
        invariant forall key :: key in staleKeys <==>
          key in buckets.Keys - unseen && now - buckets[key].lastFill > STALE_AFTER
        decreases unseen
      {
        var key :| key in unseen;
        if now - buckets[key].lastFill > STALE_AFTER { staleKeys := staleKeys + {key}; }
        unseen := unseen - {key};
      }
      while staleKeys != {}
        invariant staleKeys <= buckets.Keys && staleKeys !! Cleaned(old(buckets), now).Keys
        invariant buckets == map key | key in old(buckets) && (key in staleKeys || key in Cleaned(old(buckets), now)) :: old(buckets)[key]
        decreases staleKeys
      {
        var key :| key in staleKeys;
        buckets := buckets - {key};
        staleKeys := staleKeys - {key};
      }
    }
  }

  // ----- Runs: calls of any clients, and cleanups, in the order of their times -----

  datatype Event = Call(key: ClientKey, t: int) | Cleanup(t: int)

  predicate Ordered(from: int, es: seq<Event>)
    decreases |es|
  {
    es == [] || (from <= es[0].t && Ordered(es[0].t, es[1..]))
  }

  function Answers(c: Config, bs: Buckets, es: seq<Event>): seq<bool>
    requires Usable(c)
    decreases |es|
  {
    if es == [] then []
    else
      match es[0]
      case Cleanup(t) => Answers(c, Cleaned(bs, t), es[1..])
      case Call(key, t) =>
        var (after, allowed) := AllowCall(c, bs, key, t);
        [allowed] + Answers(c, after, es[1..])
  }

  function CallsOnly(es: seq<Event>): (r: seq<Event>)
    ensures |r| <= |es|
  {
    if es == [] then [] else if es[0].Cleanup? then CallsOnly(es[1..]) else [es[0]] + CallsOnly(es[1..])
  }

  /** Requests of one client that are allowed at times in `[a, b]`. */
  function AllowedIn(c: Config, bs: Buckets, es: seq<Event>, key: ClientKey, a: int, b: int): nat
    requires Usable(c)
    decreases |es|
  {
    if es == [] then 0
    else
      match es[0]
      case Cleanup(t) => AllowedIn(c, Cleaned(bs, t), es[1..], key, a, b)
      case Call(k, t) =>
        var (after, allowed) := AllowCall(c, bs, k, t);
        (if allowed && k == key && a <= t <= b then 1 else 0) + AllowedIn(c, after, es[1..], key, a, b)
  }

  // ----- The bound on a window -----

  function Max0(x: int): nat {
    if x > 0 then x else 0
  }

  /** Buckets hold at most a burst and were last filled in the past. */
  predicate BucketsOk(c: Config, bs: Buckets, now: int) {
    forall key :: key in bs ==> bs[key].tokens <= c.burst && bs[key].lastFill <= now
  }

  lemma StepOk(c: Config, bs: Buckets, key: ClientKey, from: int, now: int)
    requires Usable(c) && from <= now && BucketsOk(c, bs, from)
    ensures BucketsOk(c, AllowCall(c, bs, key, now).0, now)
  {
  }

  /** What a bucket can still hand out up to time `b`. */
  function Potential(c: Config, k: Bucket, b: int): int
    requires Usable(c)
  {
    k.tokens + Max0(c.rate) * ((b - k.lastFill) / c.interval)
  }

  lemma ScaledOrder(x: int, y: int, i: nat)
    requires x <= y
    ensures i * x <= i * y
  {
    assert i * (y - x) >= 0;
  }

  lemma CarryBound(i: int, d: int, carry: int)
    requires i > 0 && i * d == carry && -i < carry < 2 * i
    ensures 0 <= d <= 1
  {
    if d >= 2 { ScaledOrder(2, d, i); }
    if d <= -1 { ScaledOrder(d, -1, i); }
  }

  lemma DivAdds(x: int, y: int, i: int)
    requires i > 0
    ensures x / i + y / i <= (x + y) / i <= x / i + y / i + 1
  {
    var p, q, s := x / i, y / i, (x + y) / i;
    assert x == i * p + x % i && y == i * q + y % i && x + y == i * s + (x + y) % i;
    assert i * (s - p - q) == i * s - i * p - i * q;
    CarryBound(i, s - p - q, x % i + y % i - (x + y) % i);
  }

  lemma Distributes(r: nat, x: int, y: int, z: int)
    requires x + y <= z
    ensures r * x + r * y <= r * z
  {
    assert r * x + r * y == r * (x + y);
    assert r * (z - (x + y)) >= 0;
  }

  /** Refilling only moves tokens from the future into the bucket. */
  lemma RefillPotential(c: Config, k: Bucket, t: int, b: int)
    requires Usable(c) && k.lastFill <= t <= b
    ensures Potential(c, Refill(c, k, t), b) <= Potential(c, k, b) && Refill(c, k, t).lastFill <= t
  {
    var x, y := t - k.lastFill, b - t;
    DivAdds(x, y, c.interval);
    var p, q, s := x / c.interval, y / c.interval, (x + y) / c.interval;
    assert x + y == b - k.lastFill;
    assert c.rate <= 0 ==> p * c.rate <= 0 by { QuotientNonNegative(x, c.interval); }
    if c.rate > 0 {
      Distributes(c.rate, p, q, s);
      assert p * c.rate == c.rate * p;
    }
  }

  lemma QuotientNonNegative(x: nat, i: int)
    requires i > 0
    ensures x / i >= 0
  {
  }

  lemma PotentialNonNegative(c: Config, k: Bucket, b: int)
    requires Usable(c) && k.lastFill <= b
    ensures k.tokens <= Potential(c, k, b)
  {
    QuotientNonNegative(b - k.lastFill, c.interval);
    assert Max0(c.rate) * ((b - k.lastFill) / c.interval) >= 0;
  }

  /** Past the window nothing counts. */
  lemma {:induction false} NoneAfter(c: Config, bs: Buckets, es: seq<Event>, key: ClientKey, a: int, b: int, from: int)
    requires Usable(c) && Ordered(from, es) && b < from
    ensures AllowedIn(c, bs, es, key, a, b) == 0
    decreases |es|
  {
    hide AllowCall, Cleaned;
    if es != [] {
      var after := if es[0].Cleanup? then Cleaned(bs, es[0].t) else AllowCall(c, bs, es[0].key, es[0].t).0;
      NoneAfter(c, after, es[1..], key, a, b, es[0].t);
    }
  }

  predicate NoCleanup(es: seq<Event>) {
    forall i :: 0 <= i < |es| ==> es[i].Call?
  }

  /** A bucket hands out no more than its potential. */
  lemma {:induction false} WithinPotential(
    c: Config, bs: Buckets, es: seq<Event>, key: ClientKey, a: int, b: int, from: int)
    requires Usable(c) && Ordered(from, es) && NoCleanup(es)
    requires key in bs && bs[key].lastFill <= from && bs[key].lastFill <= b
    ensures AllowedIn(c, bs, es, key, a, b) <= Max0(Potential(c, bs[key], b))
    decreases |es|
  {
    hide Potential, Refill;
    if es != [] {
      var Call(k, t) := es[0];
      var after := AllowCall(c, bs, k, t).0;
      if t > b {
        NoneAfter(c, bs, es, key, a, b, t);
      } else if k != key {
        WithinPotential(c, after, es[1..], key, a, b, t);
      } else {
        RefillPotential(c, bs[key], t, b);
        TakePotential(c, Refill(c, bs[key], t), b);
        WithinPotential(c, after, es[1..], key, a, b, t);
      }
    }
  }

  lemma TakePotential(c: Config, k: Bucket, b: int)
    requires Usable(c) && k.lastFill <= b
    ensures Take(k).0.lastFill == k.lastFill
    ensures Potential(c, Take(k).0, b) == Potential(c, k, b) - (if Take(k).1 then 1 else 0)
    ensures Take(k).1 ==> Potential(c, k, b) >= 1
  {
    PotentialNonNegative(c, k, b);
  }

  /** Right after a refill the bucket is worth at most a burst and the intervals left, plus the one under way. */
  lemma FirstPotential(c: Config, k: Bucket, t: int, a: int, b: int)
    requires Usable(c) && k.tokens <= c.burst && k.lastFill <= t && a <= t <= b
    ensures Potential(c, Refill(c, k, t), b) <= c.burst + Max0(c.rate) * ((b - a) / c.interval + 1)
  {
    var f := Refill(c, k, t);
    var r := Max0(c.rate);
    var s, w := (b - f.lastFill) / c.interval, (b - a) / c.interval;
    assert f.tokens <= c.burst;
    assert s <= w + 1 || c.rate <= 0 by {
      if c.rate > 0 { RecentFill(c, k, t); LaterStart(b, f.lastFill, a, c.interval); }
    }
    if c.rate > 0 { Distributes(r, s, 0, w + 1); }
  }

  /** A refill that adds nothing happened less than an interval ago. */
  lemma RecentFill(c: Config, k: Bucket, t: int)
    requires Usable(c) && c.rate > 0 && k.lastFill <= t
    ensures t - Refill(c, k, t).lastFill < c.interval
  {
    var n := (t - k.lastFill) / c.interval;
    if n >= 1 { assert n * c.rate >= 1; }
  }

  lemma LaterStart(b: int, f: int, a: int, i: int)
    requires i > 0 && a - i < f
    ensures (b - f) / i <= (b - a) / i + 1
  {
    var x, y := (b - f) / i, (b - a) / i;
    var r, s := (b - f) % i, (b - a) % i;
    assert b - f == i * x + r && b - a == i * y + s;
    Apart(i, x, y, r, s);
  }

  lemma Apart(i: int, x: int, y: int, r: nat, s: nat)
    requires i > 0 && r < i && s < i && i * x + r < i * y + s + i
    ensures x <= y + 1
  {
    if x >= y + 2 { ScaledOrder(y + 2, x, i); }
  }

  /**
    In any window `[a, b]` one client is allowed at most a burst, a rate for each whole interval in it, and one rate
    more, whatever all clients called before, during or after.
   */
  lemma {:induction false} WindowBound(
    c: Config, bs: Buckets, es: seq<Event>, key: ClientKey, a: int, b: int, from: int)
    requires Usable(c) && BucketsOk(c, bs, from) && Ordered(from, es) && NoCleanup(es) && a <= b
    ensures AllowedIn(c, bs, es, key, a, b) <= Max0(c.burst + Max0(c.rate) * ((b - a) / c.interval + 1))
    decreases |es|
  {
    hide Potential, Refill, BucketsOk;
    if es != [] {
      var Call(k, t) := es[0];
      var after := AllowCall(c, bs, k, t).0;
      StepOk(c, bs, k, from, t);
      if t > b {
        NoneAfter(c, bs, es, key, a, b, t);
      } else if k != key || t < a {
        WindowBound(c, after, es[1..], key, a, b, t);
      } else {
        var start := BucketOf(c, bs, key, t);
        StartOk(c, bs, key, from, t);
        RefillPotential(c, start, t, b);
        FirstPotential(c, start, t, a, b);
        TakePotential(c, Refill(c, start, t), b);
        WithinPotential(c, after, es[1..], key, a, b, t);
      }
    }
  }

  lemma StartOk(c: Config, bs: Buckets, key: ClientKey, from: int, now: int)
    requires BucketsOk(c, bs, from) && from <= now
    ensures BucketOf(c, bs, key, now).tokens <= c.burst && BucketOf(c, bs, key, now).lastFill <= now
  {
  }

  // ----- Cleanup -----

  /** A bucket left alone for longer than the stale time is full again. */
  predicate FullWhenStale(c: Config)
    requires Usable(c)
  {
    (STALE_AFTER + 1) / c.interval * c.rate >= c.burst
  }

  /** The tidied map agrees with the untidied one, except that it may lack buckets that are stale by now. */
  predicate Tidied(c: Config, tidy: Buckets, all: Buckets, now: int) {
    && (forall key :: key in tidy ==> key in all && all[key] == tidy[key])
    && (forall key :: key in all && key !in tidy ==> now - all[key].lastFill > STALE_AFTER)
    && (forall key :: key in all ==> 0 <= all[key].tokens <= c.burst && all[key].lastFill <= now)
  }

  lemma QuotientMonotone(x: int, y: int, i: int)
    requires i > 0 && x <= y
    ensures x / i <= y / i
  {
    DivAdds(x, y - x, i);
    QuotientNonNegative(y - x, i);
  }

  /** A stale bucket refills to exactly what a new one would be. */
  lemma StaleRefills(c: Config, k: Bucket, now: int)
    requires Usable(c) && c.burst > 0 && FullWhenStale(c) && 0 <= k.tokens && now - k.lastFill > STALE_AFTER
    ensures Refill(c, k, now) == Bucket(c.burst, now)
  {
    var n, m := (STALE_AFTER + 1) / c.interval, (now - k.lastFill) / c.interval;
    QuotientMonotone(STALE_AFTER + 1, now - k.lastFill, c.interval);
    QuotientNonNegative(STALE_AFTER + 1, c.interval);
    FasterRefill(n, m, c.rate, c.burst);
  }

  lemma FasterRefill(n: nat, m: nat, rate: int, burst: int)
    requires n <= m && n * rate >= burst > 0
    ensures m * rate >= burst
  {
    assert rate > 0 by { if rate <= 0 { ScaledOrder(rate, 0, n); } }
    ScaledOrder(n, m, rate);
  }

  lemma NewBucketRefills(c: Config, now: int)
    requires Usable(c)
    ensures Refill(c, Bucket(c.burst, now), now) == Bucket(c.burst, now)
  {
  }

  /** One call on either map: the same answer, and the maps still agree. */
  lemma CallAgrees(c: Config, tidy: Buckets, all: Buckets, key: ClientKey, from: int, now: int)
    requires Usable(c) && c.burst > 0 && FullWhenStale(c) && Tidied(c, tidy, all, from) && from <= now
    ensures AllowCall(c, tidy, key, now).1 == AllowCall(c, all, key, now).1
    ensures Tidied(c, AllowCall(c, tidy, key, now).0, AllowCall(c, all, key, now).0, now)
  {
    NewBucketRefills(c, now);
    assert Refill(c, BucketOf(c, tidy, key, now), now) == Refill(c, BucketOf(c, all, key, now), now) by {
      if key in all && key !in tidy { StaleRefills(c, all[key], now); }
    }
    RefillOk(c, BucketOf(c, all, key, now), now);
    hide Refill;
  }

  lemma RefillOk(c: Config, k: Bucket, now: int)
    requires Usable(c) && c.burst > 0 && 0 <= k.tokens <= c.burst && k.lastFill <= now
    ensures 0 <= Refill(c, k, now).tokens <= c.burst && Refill(c, k, now).lastFill <= now
  {
  }

  lemma {:induction false} CleanupInvisible(c: Config, tidy: Buckets, all: Buckets, es: seq<Event>, from: int)
    requires Usable(c) && c.burst > 0 && FullWhenStale(c) && Tidied(c, tidy, all, from) && Ordered(from, es)
    ensures Answers(c, tidy, es) == Answers(c, all, CallsOnly(es))
    decreases |es|
  {
    hide AllowCall, FullWhenStale;
    if es != [] {
      match es[0]
      case Cleanup(t) =>
        CleanupInvisible(c, Cleaned(tidy, t), all, es[1..], t);
      case Call(key, t) =>
        hide Tidied;
        CallAgrees(c, tidy, all, key, from, t);
        CleanupInvisible(c, AllowCall(c, tidy, key, t).0, AllowCall(c, all, key, t).0, es[1..], t);
        var calls := CallsOnly(es);
        assert calls[0] == es[0] && calls[1..] == CallsOnly(es[1..]);
    }
  }

  /** Without a burst nothing is ever allowed, cleanup or not. */
  lemma {:induction false} NothingAllowed(c: Config, bs: Buckets, es: seq<Event>, from: int)
    requires Usable(c) && c.burst <= 0 && BucketsOk(c, bs, from) && Ordered(from, es)
    ensures |Answers(c, bs, es)| == |CallsOnly(es)| && forall i :: 0 <= i < |Answers(c, bs, es)| ==> !Answers(c, bs, es)[i]
    decreases |es|
  {
    if es != [] {
      match es[0]
      case Cleanup(t) => NothingAllowed(c, Cleaned(bs, t), es[1..], t);
      case Call(key, t) =>
        StepOk(c, bs, key, from, t);
        RefillAtMost(c, BucketOf(c, bs, key, t), t);
        hide AllowCall, BucketsOk;
        NothingAllowed(c, AllowCall(c, bs, key, t).0, es[1..], t);
    }
  }

  lemma RefillAtMost(c: Config, k: Bucket, now: int)
    requires Usable(c) && k.tokens <= c.burst
    ensures Refill(c, k, now).tokens <= c.burst
  {
  }

  lemma {:induction false} CallsOnlyTwice(es: seq<Event>, from: int)
    requires Ordered(from, es)
    ensures CallsOnly(CallsOnly(es)) == CallsOnly(es) && Ordered(from, CallsOnly(es))
    decreases |es|
  {
    if es != [] {
      CallsOnlyTwice(es[1..], es[0].t);
      var rest := CallsOnly(es[1..]);
      if es[0].Call? {
        assert ([es[0]] + rest)[1..] == rest;
      } else {
        OrderedEarlier(from, es[0].t, rest);
      }
    }
  }

  lemma OrderedEarlier(from: int, later: int, es: seq<Event>)
    requires from <= later && Ordered(later, es)
    ensures Ordered(from, es)
  {
  }

  /** With the condition, any run answers as it would without its cleanups. */
  lemma CleanupUnobservable(c: Config, es: seq<Event>, from: int)
    requires Usable(c) && (c.burst <= 0 || FullWhenStale(c)) && Ordered(from, es)
    ensures Answers(c, map[], es) == Answers(c, map[], CallsOnly(es))
  {
    if c.burst > 0 {
      CleanupInvisible(c, map[], map[], es, from);
    } else {
      CallsOnlyTwice(es, from);
      NothingAllowed(c, map[], es, from);
      NothingAllowed(c, map[], CallsOnly(es), from);
    }
  }

  lemma {:induction false} CountInvisible(
    c: Config, tidy: Buckets, all: Buckets, es: seq<Event>, from: int, key: ClientKey, a: int, b: int)
    requires Usable(c) && c.burst > 0 && FullWhenStale(c) && Tidied(c, tidy, all, from) && Ordered(from, es)
    ensures AllowedIn(c, tidy, es, key, a, b) == AllowedIn(c, all, CallsOnly(es), key, a, b)
    decreases |es|
  {
    hide AllowCall, FullWhenStale;
    if es != [] {
      match es[0]
      case Cleanup(t) =>
        CountInvisible(c, Cleaned(tidy, t), all, es[1..], t, key, a, b);
      case Call(k, t) =>
        hide Tidied;
        CallAgrees(c, tidy, all, k, from, t);
        CountInvisible(c, AllowCall(c, tidy, k, t).0, AllowCall(c, all, k, t).0, es[1..], t, key, a, b);
        var calls := CallsOnly(es);
        assert calls[0] == es[0] && calls[1..] == CallsOnly(es[1..]);
    }
  }

  lemma {:induction false} NoneAllowed(c: Config, bs: Buckets, es: seq<Event>, from: int, key: ClientKey, a: int, b: int)
    requires Usable(c) && c.burst <= 0 && BucketsOk(c, bs, from) && Ordered(from, es)
    ensures AllowedIn(c, bs, es, key, a, b) == 0
    decreases |es|
  {
    if es != [] {
      match es[0]
      case Cleanup(t) => NoneAllowed(c, Cleaned(bs, t), es[1..], t, key, a, b);
      case Call(k, t) =>
        StepOk(c, bs, k, from, t);
        RefillAtMost(c, BucketOf(c, bs, k, t), t);
        hide AllowCall, BucketsOk;
        NoneAllowed(c, AllowCall(c, bs, k, t).0, es[1..], t, key, a, b);
    }
  }

  lemma {:induction false} OnlyCalls(es: seq<Event>)
    ensures NoCleanup(CallsOnly(es))
  {
    if es != [] { OnlyCalls(es[1..]); }
  }

  /** The window bound holds with cleanups at arbitrary times too, whenever cleanup is unobservable. */
  lemma WindowBoundWithCleanup(c: Config, es: seq<Event>, key: ClientKey, a: int, b: int, from: int)
    requires Usable(c) && (c.burst <= 0 || FullWhenStale(c)) && Ordered(from, es) && a <= b
    ensures AllowedIn(c, map[], es, key, a, b) <= Max0(c.burst + Max0(c.rate) * ((b - a) / c.interval + 1))
  {
    if c.burst > 0 {
      CountInvisible(c, map[], map[], es, from, key, a, b);
      CallsOnlyTwice(es, from);
      OnlyCalls(es);
      WindowBound(c, map[], CallsOnly(es), key, a, b, from);
    } else {
      NoneAllowed(c, map[], es, from, key, a, b);
    }
  }

  // ----- The condition is needed -----

  function Calls(n: nat, key: ClientKey, t: int): seq<Event> {
    if n == 0 then [] else [Call(key, t)] + Calls(n - 1, key, t)
  }

  function Allowed(n: nat, tokens: int): seq<bool> {
    seq(n, i => i < tokens)
  }

  /** Calls at one moment: the first `tokens` of them are allowed, and that many tokens are gone. */
  lemma {:induction false} Together(c: Config, bs: Buckets, n: nat, key: ClientKey, t: int, rest: seq<Event>, k: Bucket)
    requires Usable(c) && n > 0 && k == Refill(c, BucketOf(c, bs, key, t), t) && k.tokens >= 0
    ensures Answers(c, bs, Calls(n, key, t) + rest) ==
      Allowed(n, k.tokens) + Answers(c, bs[key := Bucket(Max0(k.tokens - n), k.lastFill)], rest)
    decreases n
  {
    hide Refill, Answers, Calls, Allowed, BucketOf;
    var after := bs[key := Bucket(Max0(k.tokens - 1), k.lastFill)];
    var last := Bucket(Max0(k.tokens - n), k.lastFill);
    OneCall(c, bs, n, key, t, rest, k);
    AllowedSplit(n, k.tokens);
    if n > 1 {
      Again(c, bs, key, t, k);
      Together(c, after, n - 1, key, t, rest, Bucket(Max0(k.tokens - 1), k.lastFill));
      assert after[key := last] == bs[key := last];
    } else {
      NoCalls(key, t, rest);
    }
  }

  lemma AllowedSplit(n: nat, tokens: nat)
    requires n > 0
    ensures Allowed(n, tokens) == [tokens > 0] + Allowed(n - 1, Max0(tokens - 1))
    ensures n == 1 ==> Allowed(n, tokens) == [tokens > 0]
  {
  }

  lemma NoCalls(key: ClientKey, t: int, rest: seq<Event>)
    ensures Calls(0, key, t) + rest == rest
  {
  }

  lemma Again(c: Config, bs: Buckets, key: ClientKey, t: int, k: Bucket)
    requires Usable(c) && k == Refill(c, BucketOf(c, bs, key, t), t)
    ensures
      var next := Bucket(Max0(k.tokens - 1), k.lastFill);
      next == Refill(c, BucketOf(c, bs[key := next], key, t), t)
  {
    RefillTwice(c, BucketOf(c, bs, key, t), t, Max0(k.tokens - 1));
  }

  lemma OneCall(c: Config, bs: Buckets, n: nat, key: ClientKey, t: int, rest: seq<Event>, k: Bucket)
    requires Usable(c) && n > 0 && k == Refill(c, BucketOf(c, bs, key, t), t) && k.tokens >= 0
    ensures Answers(c, bs, Calls(n, key, t) + rest) ==
      [k.tokens > 0] + Answers(c, bs[key := Bucket(Max0(k.tokens - 1), k.lastFill)], Calls(n - 1, key, t) + rest)
  {
    hide Refill;
    var es := Calls(n, key, t) + rest;
    assert es[0] == Call(key, t) && es[1..] == Calls(n - 1, key, t) + rest;
  }

  lemma RefillTwice(c: Config, b: Bucket, t: int, tokens: int)
    requires Usable(c)
    ensures var again := Refill(c, b, t).(tokens := tokens); Refill(c, again, t) == again
  {
  }

  /** Two bursts of calls with a cleanup between them, the second burst long enough to tell. */
  function Telling(c: Config): seq<Event>
    requires Usable(c) && c.burst > 0
  {
    var refilled := Max0((STALE_AFTER + 1) / c.interval * c.rate);
    Calls(c.burst, "k", 0) + [Cleanup(STALE_AFTER + 1)] + Calls(refilled + 1, "k", STALE_AFTER + 1)
  }

  lemma {:induction false} CallsAreCalls(n: nat, key: ClientKey, t: int, rest: seq<Event>)
    ensures CallsOnly(Calls(n, key, t) + rest) == Calls(n, key, t) + CallsOnly(rest)
    ensures Ordered(t, rest) ==> Ordered(t, Calls(n, key, t) + rest)
  {
    var es := Calls(n, key, t) + rest;
    if n > 0 {
      CallsAreCalls(n - 1, key, t, rest);
      assert es[1..] == Calls(n - 1, key, t) + rest;
    } else {
      assert es == rest && Calls(n, key, t) + CallsOnly(rest) == CallsOnly(rest);
    }
  }

  lemma TellingShape(c: Config)
    requires Usable(c) && c.burst > 0
    ensures
      var n := Max0((STALE_AFTER + 1) / c.interval * c.rate) + 1;
      && Ordered(0, Telling(c))
      && CallsOnly(Telling(c)) == Calls(c.burst, "k", 0) + Calls(n, "k", STALE_AFTER + 1)
      && Telling(c) == Calls(c.burst, "k", 0) + ([Cleanup(STALE_AFTER + 1)] + Calls(n, "k", STALE_AFTER + 1))
  {
    var n := Max0((STALE_AFTER + 1) / c.interval * c.rate) + 1;
    var second := Calls(n, "k", STALE_AFTER + 1);
    var rest := [Cleanup(STALE_AFTER + 1)] + second;
    CallsAreCalls(n, "k", STALE_AFTER + 1, []);
    assert second + [] == second && rest[1..] == second;
    CallsAreCalls(c.burst, "k", 0, rest);
    assert Telling(c) == Calls(c.burst, "k", 0) + rest;
  }

  lemma AnswersWith(c: Config, n: nat)
    requires Usable(c) && c.burst > 0 && n > 0
    ensures
      var later := STALE_AFTER + 1;
      Answers(c, map[], Calls(c.burst, "k", 0) + ([Cleanup(later)] + Calls(n, "k", later))) ==
        Allowed(c.burst, c.burst) + Allowed(n, c.burst)
  {
    var later := STALE_AFTER + 1;
    var second := Calls(n, "k", later);
    var cleaned := [Cleanup(later)] + second;
    NewBucketRefills(c, 0);
    NewBucketRefills(c, later);
    hide Calls, Refill;
    var empty: Buckets := map["k" := Bucket(0, 0)];
    assert map["k" := Bucket(Max0(c.burst - c.burst), 0)] == empty;
    Together(c, map[], c.burst, "k", 0, cleaned, Bucket(c.burst, 0));
    assert cleaned[1..] == second && Cleaned(empty, later) == map[] && second + [] == second;
    Together(c, map[], n, "k", later, [], Bucket(c.burst, later));
  }

  lemma AnswersWithout(c: Config, n: nat)
    requires Usable(c) && c.burst > 0 && !FullWhenStale(c) && n > 0
    ensures
      var later := STALE_AFTER + 1;
      Answers(c, map[], Calls(c.burst, "k", 0) + Calls(n, "k", later)) ==
        Allowed(c.burst, c.burst) + Allowed(n, Max0(later / c.interval * c.rate))
  {
    var later := STALE_AFTER + 1;
    var second := Calls(n, "k", later);
    NewBucketRefills(c, 0);
    PartlyRefilled(c);
    hide Calls, Refill, FullWhenStale;
    var empty: Buckets := map["k" := Bucket(0, 0)];
    assert map["k" := Bucket(Max0(c.burst - c.burst), 0)] == empty;
    Together(c, map[], c.burst, "k", 0, second, Bucket(c.burst, 0));
    assert second + [] == second;
    Together(c, empty, n, "k", later, [], Refill(c, Bucket(0, 0), later));
  }

  /** Without the condition the cleanup hands out tokens that the bucket would not have had. */
  lemma CleanupShows(c: Config)
    requires Usable(c) && c.burst > 0 && !FullWhenStale(c)
    ensures Ordered(0, Telling(c)) && Answers(c, map[], Telling(c)) != Answers(c, map[], CallsOnly(Telling(c)))
  {
    TellingShape(c);
    PartlyRefilled(c);
    hide Telling, Answers, Calls, Refill, FullWhenStale;
    var refilled := Max0((STALE_AFTER + 1) / c.interval * c.rate);
    AnswersWith(c, refilled + 1);
    AnswersWithout(c, refilled + 1);
    var with, without := Allowed(c.burst, c.burst) + Allowed(refilled + 1, c.burst),
                         Allowed(c.burst, c.burst) + Allowed(refilled + 1, refilled);
    assert with[c.burst + refilled] && !without[c.burst + refilled];
  }

  lemma PartlyRefilled(c: Config)
    requires Usable(c) && c.burst > 0 && !FullWhenStale(c)
    ensures Refill(c, Bucket(0, 0), STALE_AFTER + 1).tokens == Max0((STALE_AFTER + 1) / c.interval * c.rate) < c.burst
  {
  }

  /** Cleanup at arbitrary times is unobservable exactly when a stale bucket is full, or the burst allows nothing. */
  lemma CleanupUnobservableIff(c: Config)
    requires Usable(c)
    ensures (forall es :: Ordered(0, es) ==> Answers(c, map[], es) == Answers(c, map[], CallsOnly(es))) <==>
      c.burst <= 0 || 600_000_000_001 / c.interval * c.rate >= c.burst
  {
    if c.burst <= 0 || FullWhenStale(c) {
      forall es | Ordered(0, es)
        ensures Answers(c, map[], es) == Answers(c, map[], CallsOnly(es))
      {
        CleanupUnobservable(c, es, 0);
      }
    } else {
      CleanupShows(c);
    }
  }
}
