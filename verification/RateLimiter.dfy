/** The in-memory token bucket limiter: what it lets through in any stretch of time,
    and that sweeping idle buckets changes no decision. Time is counted in seconds
    over the reals. */
module RateLimiter {

  const GC_INTERVAL := 60.0

  datatype Bucket = Bucket(tokens: real, last: real)

  datatype Decision = Decision(allowed: bool, limit: nat, remaining: int, retryAfter: real)

  /** A limiter's settings; one with a zero limit or window is never built. */
  datatype Config = Config(limit: nat, window: real, refill: real) {
    ghost predicate Valid() {
      limit > 0 && window > 0.0 && refill > 0.0 && window * refill == limit as real
    }

    function Cap(): real {
      limit as real
    }
  }

  /** The tokens that accrue over a stretch of time. */
  function Gain(c: Config, elapsed: real): real {
    elapsed * c.refill
  }

  function RetryAfter(c: Config, tokens: real): real
    requires c.Valid()
  {
    (1.0 - tokens) / c.refill
  }

  function Settings(limit: nat, window: real): (c: Config)
    requires limit > 0 && window > 0.0
    ensures c.Valid() && c.limit == limit && c.window == window
  {
    Config(limit, window, limit as real / window)
  }

  datatype Request = Request(now: real, key: string)

  function Min(a: real, b: real): real {
    if a < b then a else b
  }

  function Topped(c: Config, b: Bucket, now: real): Bucket
  {
    if now - b.last > 0.0 then Bucket(Min(c.Cap(), b.tokens + Gain(c, now - b.last)), now) else b
  }

  function Ask(c: Config, b: Bucket): (Bucket, Decision)
    requires c.Valid()
  {
    if b.tokens < 1.0 then
      (b, Decision(false, c.limit, 0, RetryAfter(c, b.tokens)))
    else
      (b.(tokens := b.tokens - 1.0), Decision(true, c.limit, (b.tokens - 1.0).Floor, c.window))
  }

  type Buckets = map<string, Bucket>

  /** One request against the buckets, with no sweep. */
  function Serve(c: Config, m: Buckets, r: Request): (Buckets, Decision)
    requires c.Valid()
  {
    var b := if r.key in m then m[r.key] else Bucket(c.Cap(), r.now);
    var (after, d) := Ask(c, Topped(c, b, r.now));
    (m[r.key := after], d)
  }

  predicate Idle(c: Config, b: Bucket, now: real) {
    now - b.last >= c.window
  }

  function Swept(c: Config, m: Buckets, now: real): Buckets {
    map k | k in m && !Idle(c, m[k], now) :: m[k]
  }

  datatype Limiter = Limiter(buckets: Buckets, gcAt: real)

  const FRESH := Limiter(map[], 0.0)

  function Collected(c: Config, l: Limiter, now: real): Limiter {
    if now < l.gcAt then l else Limiter(Swept(c, l.buckets, now), now + GC_INTERVAL)
  }

  function Answer(c: Config, l: Limiter, r: Request): (Limiter, Decision)
    requires c.Valid()
  {
    var swept := Collected(c, l, r.now);
    var (m, d) := Serve(c, swept.buckets, r);
    (swept.(buckets := m), d)
  }

  /** The limiter as it runs, its buckets swept and spent in place. */
  class MemoryLimiter {
    const config: Config
    var buckets: Buckets
    var gcAt: real

    function View(): Limiter
      reads this
    {
      Limiter(buckets, gcAt)
    }

    constructor (limit: nat, window: real)
      requires limit > 0 && window > 0.0
      ensures config == Settings(limit, window) && View() == FRESH
    {
      config := Settings(limit, window);
      buckets, gcAt := map[], 0.0;
    }

    method Allow(now: real, key: string) returns (d: Decision)
      requires config.Valid()
      modifies this
      ensures (View(), d) == Answer(config, old(View()), Request(now, key))
    {
      Collect(now);
      var b := Bucket(config.Cap(), now);
      if key in buckets {
        b := buckets[key];
      }
      var elapsed := now - b.last;
      if elapsed > 0.0 {
        b := Bucket(Min(config.Cap(), b.tokens + Gain(config, elapsed)), now);
      }
      if b.tokens < 1.0 {
        buckets := buckets[key := b];
        return Decision(false, config.limit, 0, RetryAfter(config, b.tokens));
      }
      buckets := buckets[key := b.(tokens := b.tokens - 1.0)];
      return Decision(true, config.limit, (b.tokens - 1.0).Floor, config.window);
    }

    method Collect(now: real)
      modifies this
      ensures View() == Collected(config, old(View()), now)
    {
      if now < gcAt {
        return;
      }
      gcAt := now + GC_INTERVAL;
      var keys := buckets.Keys;
      ghost var all := buckets;
      while keys != {}
        invariant keys <= buckets.Keys <= all.Keys && gcAt == now + GC_INTERVAL
        invariant forall k :: k in buckets ==> buckets[k] == all[k]
        invariant forall k :: k in all && k !in keys ==> (k in buckets <==> !Idle(config, all[k], now))
        decreases keys
      {
        var k :| k in keys;
        if now - buckets[k].last >= config.window {
          buckets := buckets - {k};
        }
        keys := keys - {k};
      }
      assert buckets == Swept(config, all, now);
    }
  }

  // ----- the sweep changes no decision

  predicate Sane(c: Config, m: Buckets) {
    forall k :: k in m ==> 0.0 <= m[k].tokens <= c.Cap()
  }

  lemma GainsAdd(c: Config, a: real, b: real)
    requires c.Valid()
    ensures Gain(c, a + b) == Gain(c, a) + Gain(c, b)
    ensures a >= 0.0 ==> Gain(c, a) >= 0.0
  {
  }

  lemma GainOfWindow(c: Config, elapsed: real)
    requires c.Valid() && elapsed >= c.window
    ensures Gain(c, elapsed) >= c.Cap()
  {
    GainsAdd(c, elapsed - c.window, c.window);
    assert Gain(c, c.window) == c.Cap();
  }

  /** `swept` is `whole` without some buckets that have been idle for a window. */
  ghost predicate Forgot(c: Config, swept: Buckets, whole: Buckets, now: real) {
    && Sane(c, whole)
    && swept.Keys <= whole.Keys
    && (forall k :: k in swept ==> swept[k] == whole[k])
    && (forall k :: k in whole && k !in swept ==> Idle(c, whole[k], now))
  }

  /** A bucket idle for a whole window has refilled to a new one. */
  lemma IdleIsFresh(c: Config, b: Bucket, now: real)
    requires c.Valid() && 0.0 <= b.tokens && Idle(c, b, now)
    ensures Topped(c, b, now) == Bucket(c.Cap(), now)
  {
    GainOfWindow(c, now - b.last);
  }

  lemma TopKeepsSane(c: Config, b: Bucket, now: real)
    requires c.Valid() && 0.0 <= b.tokens <= c.Cap()
    ensures 0.0 <= Topped(c, b, now).tokens <= c.Cap() && b.tokens <= Topped(c, b, now).tokens
  {
    if now - b.last > 0.0 {
      GainsAdd(c, now - b.last, 0.0);
    }
  }

  lemma ServeForgets(c: Config, swept: Buckets, whole: Buckets, r: Request)
    requires c.Valid() && Forgot(c, swept, whole, r.now)
    ensures Serve(c, swept, r).1 == Serve(c, whole, r).1
    ensures Forgot(c, Serve(c, swept, r).0, Serve(c, whole, r).0, r.now)
  {
    if r.key in whole {
      TopKeepsSane(c, whole[r.key], r.now);
      if r.key !in swept {
        IdleIsFresh(c, whole[r.key], r.now);
      }
    }
  }

  lemma CollectForgets(c: Config, l: Limiter, whole: Buckets, before: real, now: real)
    requires c.Valid() && Forgot(c, l.buckets, whole, before) && before <= now
    ensures Forgot(c, Collected(c, l, now).buckets, whole, now)
  {
  }

  ghost predicate Forward(rs: seq<Request>, from: real) {
    && (forall i :: 0 <= i < |rs| ==> from <= rs[i].now)
    && (forall i, j :: 0 <= i < j < |rs| ==> rs[i].now <= rs[j].now)
  }

  function Decisions(c: Config, l: Limiter, rs: seq<Request>): seq<Decision>
    requires c.Valid()
    decreases |rs|
  {
    if rs == [] then []
    else
      var (next, d) := Answer(c, l, rs[0]);
      [d] + Decisions(c, next, rs[1..])
  }

  /** The same requests against buckets that are never swept. */
  function Unswept(c: Config, m: Buckets, rs: seq<Request>): seq<Decision>
    requires c.Valid()
    decreases |rs|
  {
    if rs == [] then []
    else
      var (next, d) := Serve(c, m, rs[0]);
      [d] + Unswept(c, next, rs[1..])
  }

  lemma {:induction false} SweepKeepsDecisions(c: Config, l: Limiter, whole: Buckets, before: real, rs: seq<Request>)
    requires c.Valid() && Forgot(c, l.buckets, whole, before) && Forward(rs, before)
    ensures Decisions(c, l, rs) == Unswept(c, whole, rs)
    decreases |rs|
  {
    if rs != [] {
      var r := rs[0];
      CollectForgets(c, l, whole, before, r.now);
      ServeForgets(c, Collected(c, l, r.now).buckets, whole, r);
      SweepKeepsDecisions(c, Answer(c, l, r).0, Serve(c, whole, r).0, r.now, rs[1..]);
    }
  }

  /** Over times that do not go back, a limiter that sweeps idle buckets answers
      every request exactly as one that never forgets a key. */
  lemma SweepingIsInvisible(c: Config, rs: seq<Request>, from: real)
    requires c.Valid() && Forward(rs, from)
    ensures Decisions(c, FRESH, rs) == Unswept(c, map[], rs)
  {
    SweepKeepsDecisions(c, FRESH, map[], from, rs);
  }

  // ----- exactly when the sweep shows

  /** The request's bucket was swept, and by the request's own time it would not have
      been full again. */
  predicate Early(c: Config, kept: Buckets, whole: Buckets, r: Request) {
    r.key in whole && r.key !in kept && Topped(c, whole[r.key], r.now).tokens < c.Cap()
  }

  predicate NoneEarly(c: Config, l: Limiter, whole: Buckets, rs: seq<Request>)
    requires c.Valid()
    decreases |rs|
  {
    rs == [] ||
    (!Early(c, Collected(c, l, rs[0].now).buckets, whole, rs[0])
     && NoneEarly(c, Answer(c, l, rs[0]).0, Serve(c, whole, rs[0]).0, rs[1..]))
  }

  /** `kept` is part of `whole`, in which no bucket is full: a request has just drawn on it. */
  ghost predicate PartOf(c: Config, kept: Buckets, whole: Buckets) {
    && kept.Keys <= whole.Keys
    && (forall k :: k in kept ==> kept[k] == whole[k])
    && (forall k :: k in whole ==> whole[k].tokens < c.Cap())
  }

  lemma ToppedAtMost(c: Config, b: Bucket, now: real)
    requires c.Valid() && b.tokens < c.Cap()
    ensures Topped(c, b, now).tokens <= c.Cap()
    ensures Topped(c, b, now).tokens == c.Cap() ==> Topped(c, b, now) == Bucket(c.Cap(), now)
  {
  }

  /** A bucket answers as a full one does exactly if it is full: the tokens left are
      part of the answer. */
  lemma AnswersAsFull(c: Config, b: Bucket, now: real)
    requires c.Valid() && b.tokens <= c.Cap()
    ensures Ask(c, b).1 == Ask(c, Bucket(c.Cap(), now)).1 <==> b.tokens == c.Cap()
    ensures Ask(c, b).0.tokens < c.Cap()
  {
    assert (c.Cap() - 1.0).Floor == c.limit - 1;
    if 1.0 <= b.tokens < c.Cap() {
      assert (b.tokens - 1.0).Floor as real <= b.tokens - 1.0 < (c.limit - 1) as real;
    }
  }

  lemma ServePart(c: Config, kept: Buckets, whole: Buckets, r: Request)
    requires c.Valid() && PartOf(c, kept, whole)
    ensures Serve(c, kept, r).1 == Serve(c, whole, r).1 <==> !Early(c, kept, whole, r)
    ensures !Early(c, kept, whole, r) ==> PartOf(c, Serve(c, kept, r).0, Serve(c, whole, r).0)
  {
    var full := Bucket(c.Cap(), r.now);
    AnswersAsFull(c, full, r.now);
    if r.key in whole {
      ToppedAtMost(c, whole[r.key], r.now);
      AnswersAsFull(c, Topped(c, whole[r.key], r.now), r.now);
    }
  }

  lemma HeadAndTail<T>(a: T, s: seq<T>, b: T, t: seq<T>)
    ensures [a] + s == [b] + t <==> a == b && s == t
  {
    if [a] + s == [b] + t {
      assert ([a] + s)[0] == a && ([b] + t)[0] == b;
      assert ([a] + s)[1..] == s && ([b] + t)[1..] == t;
    }
  }

  lemma {:induction false} SweepShowsIffEarly(c: Config, l: Limiter, whole: Buckets, rs: seq<Request>)
    requires c.Valid() && PartOf(c, l.buckets, whole)
    ensures Decisions(c, l, rs) == Unswept(c, whole, rs) <==> NoneEarly(c, l, whole, rs)
    decreases |rs|
  {
    if rs != [] {
      var r, swept := rs[0], Collected(c, l, rs[0].now);
      var next, after := Answer(c, l, r).0, Serve(c, whole, r).0;
      assert PartOf(c, swept.buckets, whole);
      ServePart(c, swept.buckets, whole, r);
      HeadAndTail(Answer(c, l, r).1, Decisions(c, next, rs[1..]), Serve(c, whole, r).1, Unswept(c, after, rs[1..]));
      if !Early(c, swept.buckets, whole, r) {
        SweepShowsIffEarly(c, next, after, rs[1..]);
      }
    }
  }

  /** Over whatever times the clock gives, a limiter that sweeps answers every request as
      one that never does, if and only if no request comes earlier than its swept bucket
      would have been full. */
  lemma SweepingShowsIffEarly(c: Config, rs: seq<Request>)
    requires c.Valid()
    ensures Decisions(c, FRESH, rs) == Unswept(c, map[], rs) <==> NoneEarly(c, FRESH, map[], rs)
  {
    SweepShowsIffEarly(c, FRESH, map[], rs);
  }

  lemma FirstRequest(c: Config, r: Request)
    requires c.Valid() && r.now >= 0.0
    ensures Answer(c, FRESH, r).0 == Limiter(map[r.key := Bucket(c.Cap() - 1.0, r.now)], r.now + GC_INTERVAL)
    ensures Serve(c, map[], r).0 == map[r.key := Bucket(c.Cap() - 1.0, r.now)]
    ensures !Early(c, map[], map[], r)
  {
    assert Swept(c, map[], r.now) == map[];
  }

  lemma SweepForgets(c: Config, l: Limiter, r: Request, key: string)
    requires c.Valid() && key in l.buckets && Idle(c, l.buckets[key], r.now) && l.gcAt <= r.now && key != r.key
    ensures key !in Answer(c, l, r).0.buckets && Answer(c, l, r).0.gcAt == r.now + GC_INTERVAL
  {
  }

  lemma FirstOf(c: Config, l: Limiter, whole: Buckets, r: Request, rest: seq<Request>)
    requires c.Valid()
    ensures NoneEarly(c, l, whole, [r] + rest) <==>
              !Early(c, Collected(c, l, r.now).buckets, whole, r)
              && NoneEarly(c, Answer(c, l, r).0, Serve(c, whole, r).0, rest)
  {
    assert ([r] + rest)[1..] == rest;
  }

  lemma ThreeRequests(c: Config, l: Limiter, whole: Buckets, a: Request, b: Request, d: Request)
    requires c.Valid()
    ensures var l1, m1 := Answer(c, l, a).0, Serve(c, whole, a).0;
            var l2, m2 := Answer(c, l1, b).0, Serve(c, m1, b).0;
            NoneEarly(c, l, whole, [a, b, d]) <==>
              && !Early(c, Collected(c, l, a.now).buckets, whole, a) && !Early(c, Collected(c, l1, b.now).buckets, m1, b)
              && !Early(c, Collected(c, l2, d.now).buckets, m2, d)
  {
    var l1, m1 := Answer(c, l, a).0, Serve(c, whole, a).0;
    assert [a, b, d] == [a] + [b, d] && [b, d] == [b] + [d] && [d] == [d] + [];
    FirstOf(c, l, whole, a, [b, d]);
    FirstOf(c, l1, m1, b, [d]);
    FirstOf(c, Answer(c, l1, b).0, Serve(c, m1, b).0, d, []);
  }

  /** Under every limit a clock that steps back can show the sweep: a key asks, another
      key's request a window later sweeps its bucket, and it asks again at an earlier
      moment. The two answer differently exactly if that moment is less than the time of
      one token after its first. */
  lemma BackwardClockDiffers(c: Config, a: Request, b: Request, d: Request)
    requires c.Valid() && a.key == d.key != b.key
    requires 0.0 <= a.now && a.now + c.window <= b.now && a.now + GC_INTERVAL <= b.now
    requires d.now < b.now + GC_INTERVAL
    ensures Decisions(c, FRESH, [a, b, d]) != Unswept(c, map[], [a, b, d]) <==> Gain(c, d.now - a.now) < 1.0
  {
    SweepingShowsIffEarly(c, [a, b, d]);
    ThreeRequests(c, FRESH, map[], a, b, d);
    FirstRequest(c, a);
    var l1, m1 := Answer(c, FRESH, a).0, Serve(c, map[], a).0;
    SweepForgets(c, l1, b, a.key);
    var m2 := Serve(c, m1, b).0;
    assert m2[a.key] == Bucket(c.Cap() - 1.0, a.now);
    NegativeGain(c, d.now - a.now);
  }

  lemma NegativeGain(c: Config, elapsed: real)
    requires c.Valid()
    ensures elapsed <= 0.0 ==> Gain(c, elapsed) <= 0.0
  {
  }

  // ----- what is let through

  /** The tokens a key has at a moment: its bucket's, topped up, or a full one. */
  function Level(c: Config, m: Buckets, key: string, now: real): real
  {
    if key in m then Topped(c, m[key], now).tokens else c.Cap()
  }

  function Let(rs: seq<Request>, ds: seq<Decision>, key: string): nat
    requires |rs| == |ds|
  {
    if rs == [] then 0
    else Cost(rs[0], ds[0], key) + Let(rs[1..], ds[1..], key)
  }

  lemma {:induction false} UnsweptLength(c: Config, m: Buckets, rs: seq<Request>)
    requires c.Valid()
    ensures |Unswept(c, m, rs)| == |rs|
    decreases |rs|
  {
    if rs != [] {
      UnsweptLength(c, Serve(c, m, rs[0]).0, rs[1..]);
    }
  }

  function Cost(r: Request, d: Decision, key: string): nat {
    if r.key == key && d.allowed then 1 else 0
  }

  lemma ServeTakes(c: Config, m: Buckets, r: Request, key: string)
    requires c.Valid() && Sane(c, m)
    ensures var (m', d) := Serve(c, m, r);
            Sane(c, m') && Level(c, m', key, r.now) == Level(c, m, key, r.now) - Cost(r, d, key) as real
  {
    if r.key in m {
      TopKeepsSane(c, m[r.key], r.now);
    }
  }

  lemma LevelRises(c: Config, m: Buckets, key: string, now: real, later: real)
    requires c.Valid() && Sane(c, m) && now <= later
    ensures Level(c, m, key, later) <= Level(c, m, key, now) + Gain(c, later - now)
  {
    GainsAdd(c, later - now, 0.0);
    if key in m {
      var b := m[key];
      if now - b.last > 0.0 {
        GainsAdd(c, now - b.last, later - now);
        assert now - b.last + (later - now) == later - b.last;
      } else if later - b.last > 0.0 {
        GainsAdd(c, later - b.last, b.last - now);
        GainsAdd(c, b.last - now, 0.0);
        assert later - b.last + (b.last - now) == later - now;
      }
    }
  }

  lemma LevelIsBounded(c: Config, m: Buckets, key: string, now: real)
    requires c.Valid() && Sane(c, m)
    ensures 0.0 <= Level(c, m, key, now) <= c.Cap()
  {
    if key in m {
      TopKeepsSane(c, m[key], now);
    }
  }

  lemma Accumulate(all: nat, one: nat, rest: nat, before: real, after: real, later: real, g: real, h: real, total: real)
    requires all == one + rest && after == before - one as real && later <= after + g
    requires rest as real <= later + h && total == g + h
    ensures all as real <= before + total
  {
  }

  /** One token per request let through, and the level never rises faster than the
      refill. */
  lemma {:induction false} Spent(c: Config, m: Buckets, rs: seq<Request>, key: string, until: real)
    requires c.Valid() && Sane(c, m) && rs != [] && Forward(rs, rs[0].now)
    requires forall i :: 0 <= i < |rs| ==> rs[i].now <= until
    ensures |Unswept(c, m, rs)| == |rs|
    ensures Let(rs, Unswept(c, m, rs), key) as real <= Level(c, m, key, rs[0].now) + Gain(c, until - rs[0].now)
    decreases |rs|
  {
    var r, rest := rs[0], rs[1..];
    var (m', d) := Serve(c, m, r);
    LetSplits(c, m, rs, key);
    ServeTakes(c, m, r, key);
    var before, after := Level(c, m, key, r.now), Level(c, m', key, r.now);
    if rest == [] {
      LevelIsBounded(c, m', key, r.now);
      GainsAdd(c, until - r.now, 0.0);
    } else {
      var next := rest[0].now;
      assert Forward(rest, next) by {
        assert forall i :: 0 <= i < |rest| ==> rest[i] == rs[i + 1];
      }
      LevelRises(c, m', key, r.now, next);
      Spent(c, m', rest, key, until);
      GainsAdd(c, next - r.now, until - next);
      assert next - r.now + (until - next) == until - r.now;
      Accumulate(Let(rs, Unswept(c, m, rs), key), Cost(r, d, key), Let(rest, Unswept(c, m', rest), key),
                 before, after, Level(c, m', key, next), Gain(c, next - r.now), Gain(c, until - next), Gain(c, until - r.now));
    }
  }

  lemma LetSplits(c: Config, m: Buckets, rs: seq<Request>, key: string)
    requires c.Valid() && rs != []
    ensures var (m', d) := Serve(c, m, rs[0]);
            && |Unswept(c, m, rs)| == |rs| && |Unswept(c, m', rs[1..])| == |rs| - 1
            && Let(rs, Unswept(c, m, rs), key) ==
                 Cost(rs[0], d, key) + Let(rs[1..], Unswept(c, m', rs[1..]), key)
  {
    var (m', d) := Serve(c, m, rs[0]);
    UnsweptLength(c, m', rs[1..]);
    assert Unswept(c, m, rs)[0] == d && Unswept(c, m, rs)[1..] == Unswept(c, m', rs[1..]);
  }

  function After(c: Config, m: Buckets, rs: seq<Request>): Buckets
    requires c.Valid()
    decreases |rs|
  {
    if rs == [] then m else After(c, Serve(c, m, rs[0]).0, rs[1..])
  }

  lemma {:induction false} AfterIsSane(c: Config, m: Buckets, rs: seq<Request>)
    requires c.Valid() && Sane(c, m)
    ensures Sane(c, After(c, m, rs))
    decreases |rs|
  {
    if rs != [] {
      ServeTakes(c, m, rs[0], "");
      AfterIsSane(c, Serve(c, m, rs[0]).0, rs[1..]);
    }
  }

  lemma {:induction false} UnsweptSplits(c: Config, m: Buckets, a: seq<Request>, b: seq<Request>)
    requires c.Valid()
    ensures Unswept(c, m, a + b) == Unswept(c, m, a) + Unswept(c, After(c, m, a), b)
    decreases |a|
  {
    if a == [] {
      assert a + b == b;
    } else {
      assert (a + b)[1..] == a[1..] + b;
      UnsweptSplits(c, Serve(c, m, a[0]).0, a[1..], b);
    }
  }

  /** The quota: of the requests that fall into any stretch of T seconds, at most
      limit + T * limit / window of one key are let through, whatever came before
      and however often idle buckets were swept. */
  lemma QuotaHolds(c: Config, rs: seq<Request>, i: nat, j: nat, key: string, T: real)
    requires c.Valid() && i <= j <= |rs| && T >= 0.0
    requires forall x, y :: 0 <= x < y < |rs| ==> rs[x].now <= rs[y].now
    requires forall x :: i <= x < j ==> rs[x].now <= rs[i].now + T
    ensures |Decisions(c, FRESH, rs)| == |rs|
    ensures Let(rs[i..j], Decisions(c, FRESH, rs)[i..j], key) as real <= c.Cap() + T * c.Cap() / c.window
  {
    var mid := rs[i..j];
    var m := Middle(c, rs, i, j);
    if mid != [] {
      Spent(c, m, mid, key, mid[0].now + T);
      LevelIsBounded(c, m, key, mid[0].now);
      assert mid[0].now + T - mid[0].now == T;
      RateOf(c, T);
    } else {
      RateOf(c, T);
    }
  }

  lemma RateOf(c: Config, T: real)
    requires c.Valid() && T >= 0.0
    ensures Gain(c, T) == T * c.Cap() / c.window >= 0.0
  {
    GainsAdd(c, T, 0.0);
    assert T * c.Cap() == (T * c.refill) * c.window;
  }

  /** What a stretch of requests is answered is what it would be answered alone,
      from some sane set of buckets. */
  lemma Middle(c: Config, rs: seq<Request>, i: nat, j: nat) returns (m: Buckets)
    requires c.Valid() && i <= j <= |rs|
    requires forall x, y :: 0 <= x < y < |rs| ==> rs[x].now <= rs[y].now
    ensures Sane(c, m) && |Decisions(c, FRESH, rs)| == |rs| && |Unswept(c, m, rs[i..j])| == j - i
    ensures Decisions(c, FRESH, rs)[i..j] == Unswept(c, m, rs[i..j])
  {
    var before, mid, rest := rs[..i], rs[i..j], rs[j..];
    assert rs == before + (mid + rest);
    m := After(c, map[], before);
    AfterIsSane(c, map[], before);
    MiddleOfUnswept(c, before, mid, rest);
    UnsweptLength(c, map[], rs);
    UnsweptLength(c, m, mid);
    if rs != [] {
      SweepingIsInvisible(c, rs, rs[0].now);
    }
  }

  lemma MiddleOfUnswept(c: Config, a: seq<Request>, b: seq<Request>, d: seq<Request>)
    requires c.Valid()
    ensures |Unswept(c, map[], a + (b + d))| == |a| + |b| + |d|
    ensures Unswept(c, map[], a + (b + d))[|a|..|a| + |b|] == Unswept(c, After(c, map[], a), b)
  {
    var m := After(c, map[], a);
    UnsweptSplits(c, map[], a, b + d);
    UnsweptSplits(c, m, b, d);
    UnsweptLength(c, map[], a);
    UnsweptLength(c, m, b);
    UnsweptLength(c, After(c, m, b), d);
  }

  // ----- what is refused

  /** No bucket has been touched after that moment. */
  ghost predicate Past(m: Buckets, now: real) {
    forall k :: k in m ==> m[k].last <= now
  }

  /** Left alone, the level rises by the refill until it is full. */
  lemma LevelIsRefilled(c: Config, m: Buckets, key: string, now: real, later: real)
    requires c.Valid() && Sane(c, m) && Past(m, now) && now <= later
    ensures Level(c, m, key, later) == Min(c.Cap(), Level(c, m, key, now) + Gain(c, later - now))
  {
    GainsAdd(c, later - now, 0.0);
    if key in m {
      GainsAdd(c, now - m[key].last, later - now);
      assert now - m[key].last + (later - now) == later - m[key].last;
    }
  }

  lemma ServeIsPast(c: Config, m: Buckets, r: Request)
    requires c.Valid() && Past(m, r.now)
    ensures Past(Serve(c, m, r).0, r.now)
  {
  }

  /** The buckets before request j. */
  function At(c: Config, rs: seq<Request>, j: nat): Buckets
    requires c.Valid() && j <= |rs|
  {
    if j == 0 then map[] else Serve(c, At(c, rs, j - 1), rs[j - 1]).0
  }

  function LetBetween(c: Config, rs: seq<Request>, key: string, i: nat, j: nat): nat
    requires c.Valid() && i <= j <= |rs|
  {
    if i == j then 0
    else LetBetween(c, rs, key, i, j - 1) + Cost(rs[j - 1], Serve(c, At(c, rs, j - 1), rs[j - 1]).1, key)
  }

  ghost predicate Ascending(rs: seq<Request>) {
    forall x, y :: 0 <= x < y < |rs| ==> rs[x].now <= rs[y].now
  }

  lemma {:induction false} AtIsSane(c: Config, rs: seq<Request>, j: nat)
    requires c.Valid() && Ascending(rs) && j < |rs|
    ensures Sane(c, At(c, rs, j)) && Past(At(c, rs, j), rs[j].now)
  {
    if j > 0 {
      AtIsSane(c, rs, j - 1);
      ServeTakes(c, At(c, rs, j - 1), rs[j - 1], "");
      ServeIsPast(c, At(c, rs, j - 1), rs[j - 1]);
    }
  }

  /** What a bucket full at request i would hold at request j, by what was let through. */
  function Left(c: Config, rs: seq<Request>, key: string, i: nat, j: nat): real
    requires c.Valid() && i <= j < |rs|
  {
    Remainder(c, rs[j].now - rs[i].now, LetBetween(c, rs, key, i, j))
  }

  function Remainder(c: Config, T: real, used: nat): real {
    c.Cap() - used as real + Gain(c, T)
  }

  lemma LevelStep(c: Config, rs: seq<Request>, key: string, j: nat)
    requires c.Valid() && Ascending(rs) && 0 < j < |rs|
    ensures var before := Level(c, At(c, rs, j - 1), key, rs[j - 1].now);
            var cost := Cost(rs[j - 1], Serve(c, At(c, rs, j - 1), rs[j - 1]).1, key);
            Level(c, At(c, rs, j), key, rs[j].now) ==
              Min(c.Cap(), before - cost as real + Gain(c, rs[j].now - rs[j - 1].now))
  {
    var m, r := At(c, rs, j - 1), rs[j - 1];
    AtIsSane(c, rs, j - 1);
    ServeTakes(c, m, r, key);
    ServeIsPast(c, m, r);
    LevelIsRefilled(c, Serve(c, m, r).0, key, r.now, rs[j].now);
  }

  lemma LeftStep(c: Config, rs: seq<Request>, key: string, i: nat, j: nat)
    requires c.Valid() && i < j < |rs|
    ensures var cost := Cost(rs[j - 1], Serve(c, At(c, rs, j - 1), rs[j - 1]).1, key);
            Left(c, rs, key, i, j) == Left(c, rs, key, i, j - 1) - cost as real + Gain(c, rs[j].now - rs[j - 1].now)
  {
    GainsAdd(c, rs[j - 1].now - rs[i].now, rs[j].now - rs[j - 1].now);
    assert rs[j - 1].now - rs[i].now + (rs[j].now - rs[j - 1].now) == rs[j].now - rs[i].now;
  }

  /** The level is never above what any earlier moment leaves of a full bucket. */
  lemma {:induction false} LevelAtMost(c: Config, rs: seq<Request>, key: string, i: nat, j: nat)
    requires c.Valid() && Ascending(rs) && i <= j < |rs|
    ensures Level(c, At(c, rs, j), key, rs[j].now) <= Left(c, rs, key, i, j)
    decreases j - i
  {
    AtIsSane(c, rs, j);
    LevelIsBounded(c, At(c, rs, j), key, rs[j].now);
    GainsAdd(c, 0.0, 0.0);
    if i < j {
      LevelAtMost(c, rs, key, i, j - 1);
      LevelStep(c, rs, key, j);
      LeftStep(c, rs, key, i, j);
    }
  }

  /** And it is exactly that for some earlier moment: when the bucket was last full. */
  lemma {:induction false} LevelIsLeft(c: Config, rs: seq<Request>, key: string, j: nat) returns (i: nat)
    requires c.Valid() && Ascending(rs) && j < |rs|
    ensures i <= j && Level(c, At(c, rs, j), key, rs[j].now) == Left(c, rs, key, i, j)
  {
    GainsAdd(c, 0.0, 0.0);
    if j == 0 || Level(c, At(c, rs, j), key, rs[j].now) == c.Cap() {
      i := j;
    } else {
      LevelStep(c, rs, key, j);
      i := LevelIsLeft(c, rs, key, j - 1);
      LeftStep(c, rs, key, i, j);
    }
  }

  lemma {:induction false} AtIsAfter(c: Config, rs: seq<Request>, j: nat)
    requires c.Valid() && j <= |rs|
    ensures At(c, rs, j) == After(c, map[], rs[..j])
  {
    if j > 0 {
      AtIsAfter(c, rs, j - 1);
      assert rs[..j] == rs[..j - 1] + [rs[j - 1]];
      AfterOne(c, map[], rs[..j - 1], rs[j - 1]);
    }
  }

  lemma {:induction false} AfterOne(c: Config, m: Buckets, rs: seq<Request>, r: Request)
    requires c.Valid()
    ensures After(c, m, rs + [r]) == Serve(c, After(c, m, rs), r).0
    decreases |rs|
  {
    if rs == [] {
      assert rs + [r] == [r] && [r][1..] == [];
    } else {
      assert (rs + [r])[1..] == rs[1..] + [r];
      AfterOne(c, Serve(c, m, rs[0]).0, rs[1..], r);
    }
  }

  /** The answers are those of the buckets before each request. */
  lemma AnswerAt(c: Config, rs: seq<Request>, j: nat)
    requires c.Valid() && j < |rs|
    ensures |Unswept(c, map[], rs)| == |rs| && Unswept(c, map[], rs)[j] == Serve(c, At(c, rs, j), rs[j]).1
  {
    assert rs == rs[..j] + rs[j..];
    UnsweptSplits(c, map[], rs[..j], rs[j..]);
    UnsweptLength(c, map[], rs[..j]);
    UnsweptLength(c, map[], rs);
    AtIsAfter(c, rs, j);
  }

  lemma {:induction false} LetAppends(rs: seq<Request>, ds: seq<Decision>, r: Request, d: Decision, key: string)
    requires |rs| == |ds|
    ensures Let(rs + [r], ds + [d], key) == Let(rs, ds, key) + Cost(r, d, key)
  {
    if rs == [] {
      assert rs + [r] == [r] && ds + [d] == [d] && Let([r][1..], [d][1..], key) == 0;
    } else {
      assert (rs + [r])[1..] == rs[1..] + [r] && (ds + [d])[1..] == ds[1..] + [d];
      LetAppends(rs[1..], ds[1..], r, d, key);
    }
  }

  lemma LetLast(rs: seq<Request>, ds: seq<Decision>, key: string, i: nat, j: nat)
    requires i < j <= |rs| == |ds|
    ensures Let(rs[i..j], ds[i..j], key) == Let(rs[i..j - 1], ds[i..j - 1], key) + Cost(rs[j - 1], ds[j - 1], key)
  {
    LetAppends(rs[i..j - 1], ds[i..j - 1], rs[j - 1], ds[j - 1], key);
    assert rs[i..j] == rs[i..j - 1] + [rs[j - 1]] && ds[i..j] == ds[i..j - 1] + [ds[j - 1]];
  }

  /** Decision k is what the buckets before request k make of it. */
  predicate AnsweredAt(c: Config, rs: seq<Request>, ds: seq<Decision>, k: nat)
    requires c.Valid()
  {
    k < |rs| && k < |ds| && ds[k] == Serve(c, At(c, rs, k), rs[k]).1
  }

  lemma {:induction false} LetBetweenIs(c: Config, rs: seq<Request>, ds: seq<Decision>, key: string, i: nat, j: nat)
    requires c.Valid() && i <= j <= |rs| == |ds|
    requires forall k: nat :: k < |rs| ==> AnsweredAt(c, rs, ds, k)
    ensures LetBetween(c, rs, key, i, j) == Let(rs[i..j], ds[i..j], key)
    decreases j - i
  {
    if i < j {
      LetBetweenIs(c, rs, ds, key, i, j - 1);
      LetLast(rs, ds, key, i, j);
      assert AnsweredAt(c, rs, ds, j - 1);
      BetweenStep(c, rs, key, i, j);
    }
  }

  lemma BetweenStep(c: Config, rs: seq<Request>, key: string, i: nat, j: nat)
    requires c.Valid() && i < j <= |rs|
    ensures LetBetween(c, rs, key, i, j) ==
            LetBetween(c, rs, key, i, j - 1) + Cost(rs[j - 1], Serve(c, At(c, rs, j - 1), rs[j - 1]).1, key)
  {
  }

  /** From request i up to request j the key was let through more often than a limit less
      one and the refill of that stretch allow. */
  predicate UsedUp(c: Config, rs: seq<Request>, ds: seq<Decision>, key: string, i: int, j: int)
    requires c.Valid() && 0 <= i <= j < |rs| == |ds|
  {
    OverUsed(c, rs[j].now - rs[i].now, Let(rs[i..j], ds[i..j], key))
  }

  predicate OverUsed(c: Config, T: real, used: nat)
    requires c.Valid()
  {
    used as real > c.Cap() - 1.0 + T * c.Cap() / c.window
  }

  /** Nobody is refused without cause, nor let through beyond the quota: over times that
      do not go back a request is refused exactly if in some stretch that ends with it
      its key was let through more than limit - 1 + T * limit / window times. */
  lemma RefusedIffUsedUp(c: Config, rs: seq<Request>, j: nat)
    requires c.Valid() && Ascending(rs) && j < |rs|
    ensures var ds := Decisions(c, FRESH, rs);
            |ds| == |rs| && (!ds[j].allowed <==> exists i :: 0 <= i <= j && UsedUp(c, rs, ds, rs[j].key, i, j))
  {
    var key, ds := rs[j].key, Decisions(c, FRESH, rs);
    SweepingIsInvisible(c, rs, rs[0].now);
    forall k: nat | k < |rs| ensures |ds| == |rs| && AnsweredAt(c, rs, ds, k) {
      AnswerAt(c, rs, k);
    }
    assert AnsweredAt(c, rs, ds, j);
    AllowedIffToken(c, At(c, rs, j), rs[j]);
    forall i: nat | i <= j
      ensures UsedUp(c, rs, ds, key, i, j) <==> Left(c, rs, key, i, j) < 1.0
      ensures Level(c, At(c, rs, j), key, rs[j].now) <= Left(c, rs, key, i, j)
    {
      UsedUpIsLow(c, rs, ds, key, i, j);
      LevelAtMost(c, rs, key, i, j);
    }
    var i := LevelIsLeft(c, rs, key, j);
  }

  lemma AllowedIffToken(c: Config, m: Buckets, r: Request)
    requires c.Valid()
    ensures Serve(c, m, r).1.allowed <==> Level(c, m, r.key, r.now) >= 1.0
  {
  }

  lemma UsedUpIsLow(c: Config, rs: seq<Request>, ds: seq<Decision>, key: string, i: nat, j: nat)
    requires c.Valid() && Ascending(rs) && i <= j < |rs| == |ds|
    requires forall k: nat :: k < |rs| ==> AnsweredAt(c, rs, ds, k)
    ensures UsedUp(c, rs, ds, key, i, j) <==> Left(c, rs, key, i, j) < 1.0
  {
    LetBetweenIs(c, rs, ds, key, i, j);
    LowIff(c, rs[j].now - rs[i].now, LetBetween(c, rs, key, i, j));
  }

  lemma LowIff(c: Config, T: real, used: nat)
    requires c.Valid() && T >= 0.0
    ensures OverUsed(c, T, used) <==> Remainder(c, T, used) < 1.0
  {
    var gain, rate := Gain(c, T), T * c.Cap() / c.window;
    RateOf(c, T);
    assert gain == rate;
    SameComparison(c.Cap(), used as real, gain, rate);
  }

  lemma SameComparison(cap: real, used: real, gain: real, rate: real)
    requires gain == rate
    ensures used > cap - 1.0 + rate <==> cap - used + gain < 1.0
  {
  }

  // ----- what the answer says

  /** A refused key that asks nothing in between is let through from the stated wait on,
      and not before. */
  lemma RetryAfterIsExact(c: Config, m: Buckets, r: Request, later: real)
    requires c.Valid() && Sane(c, m) && Past(m, r.now) && r.now <= later && !Serve(c, m, r).1.allowed
    ensures var (m', d) := Serve(c, m, r);
            Serve(c, m', Request(later, r.key)).1.allowed <==> later >= r.now + d.retryAfter
  {
    var (m', d) := Serve(c, m, r);
    TopKeepsSane(c, m[r.key], r.now);
    var b := m'[r.key];
    assert b.last == r.now && b.tokens < 1.0;
    Waited(c, 1.0 - b.tokens, later - r.now);
  }

  lemma Waited(c: Config, missing: real, elapsed: real)
    requires c.Valid()
    ensures Gain(c, elapsed) >= missing <==> elapsed >= missing / c.refill
  {
    var wait := missing / c.refill;
    assert wait * c.refill == missing;
    if elapsed >= wait {
      GainsAdd(c, elapsed - wait, wait);
      assert elapsed - wait + wait == elapsed;
    } else {
      assert (wait - elapsed) * c.refill > 0.0;
      GainsAdd(c, wait - elapsed, elapsed);
      assert wait - elapsed + elapsed == wait;
    }
  }

  /** k requests of one key at one moment. */
  function Burst(r: Request, k: nat): seq<Request> {
    seq(k, i => r)
  }

  /** After a request that was let through, exactly the remaining number of further ones
      at the same moment are let through too. */
  lemma RemainingIsExact(c: Config, m: Buckets, r: Request, k: nat)
    requires c.Valid() && Sane(c, m) && Past(m, r.now) && Serve(c, m, r).1.allowed
    ensures var (m', d) := Serve(c, m, r);
            && |Unswept(c, m', Burst(r, k))| == k && d.remaining >= 0
            && Let(Burst(r, k), Unswept(c, m', Burst(r, k)), r.key) == if k <= d.remaining then k else d.remaining
  {
    var (m', d) := Serve(c, m, r);
    if r.key in m {
      TopKeepsSane(c, m[r.key], r.now);
    }
    BurstTakes(c, m', r, k);
  }

  lemma {:induction false} BurstTakes(c: Config, m: Buckets, r: Request, k: nat)
    requires c.Valid() && r.key in m && m[r.key].last == r.now && m[r.key].tokens >= 0.0
    ensures var n := m[r.key].tokens.Floor;
            |Unswept(c, m, Burst(r, k))| == k &&
            Let(Burst(r, k), Unswept(c, m, Burst(r, k)), r.key) == if k <= n then k else n
    decreases k
  {
    if k > 0 {
      assert Burst(r, k)[1..] == Burst(r, k - 1);
      LetSplits(c, m, Burst(r, k), r.key);
      BurstTakes(c, Serve(c, m, r).0, r, k - 1);
      assert m[r.key].tokens >= 1.0 ==> (m[r.key].tokens - 1.0).Floor == m[r.key].tokens.Floor - 1;
    }
  }
}
