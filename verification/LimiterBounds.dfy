/** What the limiter of internal/middleware/ratelimit.go holds in memory, and what a quiet key may spend. */
module LimiterBounds {
  import opened Wrappers
  import opened RateLimiting

  // ---------------------------------------------------------------- how many buckets

  /** The keys called in a run, at or after a time. */
  function Callers(run: seq<Event>, from: real): set<string> {
    set e | e in run && e.Call? && e.now >= from :: e.key
  }

  /** At each call, at most `n` keys were called within the last expiry time, its own counted in. */
  ghost predicate AtMostActive(p: Params, run: seq<Event>, n: nat)
    decreases |run|
  {
    run == []
    || (var last := run[|run| - 1];
        && AtMostActive(p, run[..|run| - 1], n)
        && (last.Call? ==> |Callers(run, last.now - p.bucketExpiry)| <= n))
  }

  /** Every bucket carries the time of a call of its key. */
  ghost predicate Traced(buckets: map<string, Bucket>, run: seq<Event>) {
    forall k | k in buckets :: Call(k, buckets[k].lastTime) in run
  }

  lemma CardinalityGrows<T>(a: set<T>, b: set<T>)
    requires a <= b
    ensures |a| <= |b|
  {
    assert b == a + (b - a);
  }

  function Next(p: Params, s: State, e: Event): State {
    if e.Call? then Admit(p, s, e.key, e.now).0 else s.(config := Configured(s.config, e))
  }

  lemma {:induction false} AfterLast(p: Params, s: State, run: seq<Event>, e: Event)
    ensures var before := After(p, s, run);
            After(p, s, run + [e]) == Next(p, before, e)
    decreases |run|
  {
    hide Admit;
    hide Configured;
    if run == [] {
      assert run + [e] == [e];
    } else {
      assert (run + [e])[1..] == run[1..] + [e];
      AfterLast(p, Next(p, s, run[0]), run[1..], e);
    }
  }

  /** A call puts its own bucket in and leaves others as they were, or deletes them. */
  lemma CallKeepsOthers(p: Params, s: State, key: string, now: real)
    ensures var after, left := Admit(p, s, key, now).0.buckets, LeftOver(p, s, key, now);
            && left.Keys <= s.buckets.Keys && after.Keys == left.Keys + {key}
            && key in after && after[key].lastTime == now
            && forall k | k in after && k != key :: k in s.buckets && after[k] == s.buckets[k]
  {
    hide Refilled;
  }

  /** If the map grew beyond its limit, only buckets used within the expiry time are left. */
  lemma CallKeepsFew(p: Params, s: State, key: string, now: real)
    ensures var left := LeftOver(p, s, key, now);
            || |left.Keys + {key}| <= p.maxBuckets
            || |left.Keys + {key}| <= |s.buckets|
            || forall k | k in left :: now - left[k].lastTime <= p.bucketExpiry
  {
    var kept := if now - s.lastCleanup > p.cleanupInterval then Evicted(p, s.buckets, now) else s.buckets;
    var left := LeftOver(p, s, key, now);
    CardinalityGrows(kept.Keys, s.buckets.Keys);
    if key in kept {
      assert left.Keys + {key} == kept.Keys;
    } else if |kept| < p.maxBuckets {
      assert left.Keys == kept.Keys && |left.Keys + {key}| == |kept| + 1;
    }
  }

  lemma RecentAreCallers(p: Params, buckets: map<string, Bucket>, run: seq<Event>, now: real)
    requires Traced(buckets, run) && forall k | k in buckets :: now - buckets[k].lastTime <= p.bucketExpiry
    ensures |buckets.Keys| <= |Callers(run, now - p.bucketExpiry)|
  {
    forall k | k in buckets ensures k in Callers(run, now - p.bucketExpiry) {
      assert Call(k, buckets[k].lastTime) in run;
    }
    CardinalityGrows(buckets.Keys, Callers(run, now - p.bucketExpiry));
  }

  lemma StepIsBounded(p: Params, s: State, run: seq<Event>, key: string, now: real, n: nat)
    requires p.bucketExpiry >= 0.0 && Traced(Admit(p, s, key, now).0.buckets, run)
    requires |Callers(run, now - p.bucketExpiry)| <= n
    requires |s.buckets| <= p.maxBuckets || |s.buckets| <= n
    ensures var size := |Admit(p, s, key, now).0.buckets|; size <= p.maxBuckets || size <= n
  {
    var after, left := Admit(p, s, key, now).0.buckets, LeftOver(p, s, key, now);
    assert after.Keys == left.Keys + {key} && after[key].lastTime == now
      && forall k | k in left && k != key :: after[k] == left[k] by {
      CallKeepsOthers(p, s, key, now);
    }
    CallKeepsFew(p, s, key, now);
    hide Admit;
    hide LeftOver;
    if forall k | k in left :: now - left[k].lastTime <= p.bucketExpiry {
      RecentAreCallers(p, after, run, now);
    }
    assert |after| == |after.Keys|;
  }

  lemma NextIsBounded(p: Params, s: State, run: seq<Event>, e: Event, n: nat)
    requires p.bucketExpiry >= 0.0 && Traced(Next(p, s, e).buckets, run)
    requires e.Call? ==> |Callers(run, e.now - p.bucketExpiry)| <= n
    requires |s.buckets| <= p.maxBuckets || |s.buckets| <= n
    ensures var size := |Next(p, s, e).buckets|; size <= p.maxBuckets || size <= n
  {
    if e.Call? {
      StepIsBounded(p, s, run, e.key, e.now, n);
    }
    hide Admit;
    hide Traced;
  }

  lemma {:induction false} BucketsAreTraced(p: Params, s: State, run: seq<Event>)
    requires s.buckets == map[]
    ensures Traced(After(p, s, run).buckets, run)
    decreases |run|
  {
    if run != [] {
      var before, e := run[..|run| - 1], run[|run| - 1];
      assert before + [e] == run;
      BucketsAreTraced(p, s, before);
      AfterLast(p, s, before, e);
      if e.Call? {
        CallKeepsOthers(p, After(p, s, before), e.key, e.now);
        assert Call(e.key, e.now) == e;
      }
      hide Admit;
      hide LeftOver;
      hide After;
    }
  }

  lemma {:induction false} MemoryGoesOn(p: Params, s: State, run: seq<Event>, n: nat)
    requires p.bucketExpiry >= 0.0 && s.buckets == map[] && AtMostActive(p, run, n)
    ensures var size := |After(p, s, run).buckets|; size <= p.maxBuckets || size <= n
    decreases |run|
  {
    if run != [] {
      var before, e := run[..|run| - 1], run[|run| - 1];
      assert before + [e] == run;
      assert AtMostActive(p, before, n)
        && (e.Call? ==> |Callers(run, e.now - p.bucketExpiry)| <= n);
      hide *;
      MemoryGoesOn(p, s, before, n);
      AfterLast(p, s, before, e);
      BucketsAreTraced(p, s, run);
      NextIsBounded(p, After(p, s, before), run, e, n);
    }
  }

  /** The map holds no more buckets than its limit, or than ever were in use within one expiry time. */
  lemma MemoryIsBounded(p: Params, c: Config, start: real, run: seq<Event>, n: nat)
    requires p.bucketExpiry >= 0.0 && AtMostActive(p, run, n)
    ensures var size := |After(p, State(map[], c, start), run).buckets|; size <= p.maxBuckets || size <= n
  {
    MemoryGoesOn(p, State(map[], c, start), run, n);
  }

  // ---------------------------------------------------------------- how old a bucket

  /** The last cleanup is not further back than the interval, and left no expired bucket. */
  ghost predicate Swept(p: Params, s: State, now: real) {
    && 0.0 <= now - s.lastCleanup <= p.cleanupInterval
    && forall k | k in s.buckets :: s.lastCleanup - s.buckets[k].lastTime <= p.bucketExpiry
  }

  lemma CallKeepsSwept(p: Params, s: State, from: real, key: string, now: real)
    requires p.bucketExpiry >= 0.0 && p.cleanupInterval >= 0.0 && from <= now && Swept(p, s, from)
    ensures Swept(p, Admit(p, s, key, now).0, now)
  {
    hide Refilled;
    CallKeepsOthers(p, s, key, now);
  }

  lemma {:induction false} StaysSwept(p: Params, s: State, from: real, run: seq<Event>)
    requires p.bucketExpiry >= 0.0 && p.cleanupInterval >= 0.0 && Monotone(from, run) && Swept(p, s, from)
    ensures Swept(p, After(p, s, run), Clock(from, run))
    decreases |run|
  {
    if run != [] {
      var e := run[0];
      if e.Call? {
        CallKeepsSwept(p, s, from, e.key, e.now);
        StaysSwept(p, Admit(p, s, e.key, e.now).0, e.now, run[1..]);
      } else {
        StaysSwept(p, s.(config := Configured(s.config, e)), from, run[1..]);
      }
    }
  }

  /** No bucket outlives its last use by more than the expiry time and one cleanup interval. */
  lemma NoBucketIsOld(p: Params, c: Config, start: real, run: seq<Event>)
    requires p.bucketExpiry >= 0.0 && p.cleanupInterval >= 0.0 && Monotone(start, run)
    ensures var buckets := After(p, State(map[], c, start), run).buckets;
            forall k | k in buckets :: Clock(start, run) - buckets[k].lastTime <= p.bucketExpiry + p.cleanupInterval
  {
    StaysSwept(p, State(map[], c, start), start, run);
  }

  // ---------------------------------------------------------------- what a quiet key may spend

  /** How often a key is called. */
  function CallsOf(key: string, run: seq<Event>): nat {
    if run == [] then 0 else (if run[0].Call? && run[0].key == key then 1 else 0) + CallsOf(key, run[1..])
  }

  lemma WorthIsSpent(all: map<string, Bucket>, c: Config, key: string, now: real)
    requires Worth(all, c, key, now) >= 1.0
    ensures Remember(all, c, key, now).1
  {
    assert Inflow(c, now - now) == 0.0;
    hide Inflow;
  }

  lemma {:induction false} WorthIsEnough(all: map<string, Bucket>, c: Config, key: string, from: real, to: real,
      run: seq<Event>)
    requires c.rate >= 0.0 && Monotone(from, run) && CallsUntil(to, run)
    requires Worth(all, c, key, from) >= CallsOf(key, run) as real
    ensures Accepted(key, RememberedAnswers(all, c, run)) == CallsOf(key, run)
    decreases |run|
  {
    if run != [] {
      var e, rest := run[0], run[1..];
      assert e in run && forall x | x in rest :: x in run;
      WorthGrows(all, c, key, from, e.now);
      WorthAfterCall(all, c, key, e.key, e.now);
      if e.key == key {
        WorthIsSpent(all, c, key, e.now);
      }
      var (all', ok) := Remember(all, c, e.key, e.now);
      hide Remember;
      hide Worth;
      WorthIsEnough(all', c, key, e.now, to, rest);
      assert ([Answer(e.key, ok)] + RememberedAnswers(all', c, rest))[1..] == RememberedAnswers(all', c, rest);
    }
  }

  /** A key that was never called, or not for the time a burst takes to flow in, has its next calls accepted, as many as
      the burst, whatever other keys do meanwhile. */
  lemma QuietKeySpendsBurst(p: Params, c: Config, start: real, run: seq<Event>, stretch: seq<Event>, key: string,
      from: real, to: real)
    requires p.bucketExpiry > 0.0 && Monotone(start, run) && AlwaysRefills(p, c, run)
    requires Clock(start, run) <= from && Monotone(from, stretch) && CallsUntil(to, stretch)
    requires var s := After(p, State(map[], c, start), run);
             && Refills(p, s.config) && CallsOf(key, stretch) <= s.config.burst
             && var last := LastCall(key, None, run);
             last.Some? ==> Inflow(s.config, from - last.value) >= s.config.burst as real
    ensures Accepted(key, Answers(p, After(p, State(map[], c, start), run), stretch)) == CallsOf(key, stretch)
  {
    var allowed := Refilling(p);
    var s, all := After(p, State(map[], c, start), run), RememberedAfter(map[], c, run);
    QuietIsFull(p, c, start, run, key, from);
    assert AllCalls(stretch) && s.config in allowed;
    hide *;
    RefillingSettles(p);
    RateIsNonNegative(p, allowed, s.config);
    CallsStayWithin(allowed, s.config, stretch);
    AnswersAgree(p, allowed, s, all, from, stretch);
    WorthIsEnough(all, s.config, key, from, to, stretch);
  }

  lemma QuietIsFull(p: Params, c: Config, start: real, run: seq<Event>, key: string, from: real)
    requires p.bucketExpiry > 0.0 && Monotone(start, run) && AlwaysRefills(p, c, run) && Clock(start, run) <= from
    requires var last := LastCall(key, None, run);
             var now := After(p, State(map[], c, start), run).config;
             last.Some? ==> Inflow(now, from - last.value) >= now.burst as real
    ensures var s, all := After(p, State(map[], c, start), run), RememberedAfter(map[], c, run);
            Agree(p, Refilling(p), s.buckets, all, from) && Worth(all, s.config, key, from) == s.config.burst as real
  {
    var allowed := Refilling(p);
    var s0 := State(map[], c, start);
    var s, all := After(p, s0, run), RememberedAfter(map[], c, run);
    assert Agree(p, allowed, map[], map[], start) && Within(allowed, c, run);
    hide *;
    RefillingSettles(p);
    StillAgree(p, allowed, s0, map[], start, run);
    LaterAgrees(p, allowed, s.buckets, all, Clock(start, run), from);
    RemembersLastCall(map[], c, key, None, run);
    WaitFills(p, s.config, s.buckets, all, key, from);
  }

  lemma WaitFills(p: Params, c: Config, buckets: map<string, Bucket>, all: map<string, Bucket>, key: string, now: real)
    requires Agree(p, Refilling(p), buckets, all, now)
    requires key in all ==> Inflow(c, now - all[key].lastTime) >= c.burst as real
    ensures Worth(all, c, key, now) == c.burst as real
  {
    RefillingSettles(p);
    hide Inflow;
  }
}
