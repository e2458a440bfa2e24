/** When the eviction of internal/middleware/ratelimit.go shows: runs that tell the limiter from one that never deletes a
    bucket, and so the exact condition under which there are none. */
module EvictionProbing {
  import opened RateLimiting

  /** n calls on one key at one time. */
  function Burst(key: string, now: real, n: nat): seq<Event> {
    if n == 0 then [] else [Call(key, now)] + Burst(key, now, n - 1)
  }

  /** The n-th of a family of distinct keys. */
  function Filler(n: nat): (key: string)
    ensures |key| == n
  {
    if n == 0 then "" else Filler(n - 1) + "x"
  }

  /** One call each for the fillers from `n` to `last`. */
  function Fillers(now: real, n: nat, last: nat): seq<Event>
    decreases last + 1 - n
  {
    if n > last then [] else [Call(Filler(n), now)] + Fillers(now, n + 1, last)
  }

  lemma {:induction false} AnswersOfConcat(p: Params, s: State, a: seq<Event>, b: seq<Event>)
    ensures Answers(p, s, a + b) == Answers(p, s, a) + Answers(p, After(p, s, a), b)
    decreases |a|
  {
    if a == [] {
      assert a + b == b;
    } else {
      assert (a + b)[1..] == a[1..] + b;
      var s' := if a[0].Call? then Admit(p, s, a[0].key, a[0].now).0 else s.(config := Configured(s.config, a[0]));
      AnswersOfConcat(p, s', a[1..], b);
    }
  }

  lemma {:induction false} RememberedOfConcat(all: map<string, Bucket>, c: Config, a: seq<Event>, b: seq<Event>)
    requires forall e | e in a :: e.Call?
    ensures RememberedAnswers(all, c, a + b)
         == RememberedAnswers(all, c, a) + RememberedAnswers(RememberedAfter(all, c, a), c, b)
    decreases |a|
  {
    if a == [] {
      assert a + b == b;
    } else {
      assert (a + b)[1..] == a[1..] + b;
      assert a[0] in a && forall e | e in a[1..] :: e in a;
      RememberedOfConcat(Remember(all, c, a[0].key, a[0].now).0, c, a[1..], b);
    }
  }

  /** While no time passes, nothing is evicted. */
  ghost predicate AllAt(s: State, all: map<string, Bucket>, now: real) {
    s.buckets == all && s.lastCleanup == now && forall k | k in all :: all[k].lastTime == now
  }

  lemma {:induction false} NothingEvictedAtOnce(p: Params, s: State, all: map<string, Bucket>, now: real,
      run: seq<Event>)
    requires p.bucketExpiry > 0.0 && p.cleanupInterval > 0.0 && AllAt(s, all, now)
    requires forall e | e in run :: e.Call? && e.now == now
    ensures AllAt(After(p, s, run), RememberedAfter(all, s.config, run), now)
    ensures After(p, s, run).config == s.config
    ensures |Answers(p, s, run)| == |RememberedAnswers(all, s.config, run)| == |run|
    decreases |run|
  {
    if run != [] {
      var e := run[0];
      assert e in run && forall x | x in run[1..] :: x in run;
      assert Evicted(p, s.buckets, now) == s.buckets;
      NothingEvictedAtOnce(p, Admit(p, s, e.key, now).0, Remember(all, s.config, e.key, now).0, now, run[1..]);
    }
  }

  /** A burst spends the bucket dry, and all of it is accepted. */
  lemma {:induction false} BurstIsSpent(all: map<string, Bucket>, c: Config, key: string, now: real, n: nat)
    requires n <= c.burst && (key !in all ==> n == c.burst)
    requires key in all ==> all[key] == Bucket(n as real, now)
    ensures Accepted(key, RememberedAnswers(all, c, Burst(key, now, n))) == n
    ensures n > 0 ==> var later := RememberedAfter(all, c, Burst(key, now, n)); key in later && later[key] == Bucket(0.0, now)
    ensures n == 0 ==> RememberedAfter(all, c, Burst(key, now, n)) == all
    decreases n
  {
    if n > 0 {
      assert Inflow(c, now - now) == 0.0;
      var run := Burst(key, now, n);
      assert run[1..] == Burst(key, now, n - 1);
      var (all', ok) := Remember(all, c, key, now);
      BurstIsSpent(all', c, key, now, n - 1);
      assert ([Answer(key, ok)] + RememberedAnswers(all', c, run[1..]))[1..] == RememberedAnswers(all', c, run[1..]);
    }
  }

  lemma {:induction false} BurstIsCalls(key: string, now: real, n: nat)
    ensures |Burst(key, now, n)| == n && forall e | e in Burst(key, now, n) :: e == Call(key, now)
    ensures Monotone(now, Burst(key, now, n))
  {
    if n > 0 {
      BurstIsCalls(key, now, n - 1);
      assert Burst(key, now, n)[1..] == Burst(key, now, n - 1);
    }
  }

  /** The fillers take one place each and leave the key "" alone. */
  lemma {:induction false} FillersFill(all: map<string, Bucket>, c: Config, now: real, n: nat, last: nat)
    requires 1 <= n <= last + 1 && "" in all && |all| >= n && forall k | k in all :: |k| < n
    ensures forall e | e in Fillers(now, n, last) :: e.Call? && e.now == now
    ensures var later := RememberedAfter(all, c, Fillers(now, n, last));
            && "" in later && later[""] == all[""] && |later| >= last + 1 && forall k | k in later :: |k| <= last
    decreases last + 1 - n
  {
    if n <= last {
      var run := Fillers(now, n, last);
      assert run[1..] == Fillers(now, n + 1, last);
      var all' := Remember(all, c, Filler(n), now).0;
      assert all'.Keys == all.Keys + {Filler(n)} && Filler(n) !in all;
      FillersFill(all', c, now, n + 1, last);
    }
  }

  /** When everything has expired and the map is full, a new key finds the map empty. */
  lemma NewKeyClearsAll(p: Params, s: State, key: string, now: real)
    requires key !in s.buckets && |s.buckets| >= p.maxBuckets
    requires forall k | k in s.buckets :: now - s.buckets[k].lastTime > p.bucketExpiry
    ensures Admit(p, s, key, now).0.buckets.Keys == {key}
    ensures Admit(p, s, key, now).0.buckets[key].lastTime == now
    ensures Admit(p, s, key, now).0.config == s.config
  {
    assert Evicted(p, s.buckets, now) == map[];
  }

  /** A forgotten key's burst is accepted in full. */
  lemma {:induction false} ForgottenBurst(p: Params, s: State, key: string, now: real, n: nat)
    requires p.bucketExpiry > 0.0 && n <= s.config.burst && (key !in s.buckets ==> n == s.config.burst)
    requires key in s.buckets ==> s.buckets[key] == Bucket(n as real, now)
    requires forall k | k in s.buckets :: s.buckets[k].lastTime == now
    ensures Accepted(key, Answers(p, s, Burst(key, now, n))) == n
    decreases n
  {
    if n > 0 {
      assert Inflow(s.config, now - now) == 0.0;
      var run := Burst(key, now, n);
      assert run[1..] == Burst(key, now, n - 1);
      assert Evicted(p, s.buckets, now) == s.buckets;
      var (s', ok) := Admit(p, s, key, now);
      ForgottenBurst(p, s', key, now, n - 1);
      assert ([Answer(key, ok)] + Answers(p, s', run[1..]))[1..] == Answers(p, s', run[1..]);
    }
  }

  lemma {:induction false} MonotoneConcat(from: real, a: seq<Event>, b: seq<Event>)
    requires AllCalls(a) && Monotone(from, a) && Monotone(Clock(from, a), b)
    ensures Monotone(from, a + b)
    decreases |a|
  {
    if a == [] {
      assert a + b == b;
    } else {
      assert (a + b)[1..] == a[1..] + b;
      assert a[0] in a && forall e | e in a[1..] :: e in a;
      MonotoneConcat(a[0].now, a[1..], b);
    }
  }

  lemma {:induction false} StandingClock(now: real, run: seq<Event>)
    requires forall e | e in run :: e.Call? && e.now == now
    ensures Monotone(now, run) && Clock(now, run) == now
    decreases |run|
  {
    if run != [] {
      assert run[0] in run && forall e | e in run[1..] :: e in run;
      StandingClock(now, run[1..]);
    }
  }

  /** Calls on the key "" at one time that leave its bucket with `x` tokens. */
  ghost predicate Opens(c: Config, opening: seq<Event>, start: real, x: real) {
    && (forall e | e in opening :: e == Call("", start))
    && var all := RememberedAfter(map[], c, opening);
       all.Keys == {""} && all[""] == Bucket(x, start)
  }

  lemma BurstOpens(c: Config, start: real)
    requires c.burst >= 1
    ensures Opens(c, Burst("", start, c.burst), start, 0.0)
  {
    BurstIsCalls("", start, c.burst);
    BurstIsSpent(map[], c, "", start, c.burst);
    OneKey(map[], c, "", start, c.burst);
  }

  lemma RefusalOpens(c: Config, start: real)
    requires c.burst <= 0
    ensures Opens(c, [Call("", start)], start, c.burst as real)
  {
    assert Inflow(c, start - start) == 0.0;
    assert [Call("", start)][1..] == [];
  }

  /** The probe up to the wait: the key "" has `x` tokens, the map is full, and both limiters hold the same. */
  lemma ProbeFills(p: Params, c: Config, start: real, opening: seq<Event>, x: real)
    requires p.bucketExpiry > 0.0 && p.cleanupInterval > 0.0 && p.maxBuckets > 0 && Opens(c, opening, start, x)
    ensures var first := opening + Fillers(start, 1, p.maxBuckets);
            var s, all := After(p, State(map[], c, start), first), RememberedAfter(map[], c, first);
            && AllAt(s, all, start) && s.config == c && |all| >= p.maxBuckets
            && "" in all && all[""] == Bucket(x, start) && Filler(p.maxBuckets + 1) !in all
            && (forall e | e in first :: e.Call? && e.now == start)
            && |Answers(p, State(map[], c, start), first)| == |RememberedAnswers(map[], c, first)| == |first|
  {
    var fill := Fillers(start, 1, p.maxBuckets);
    FillersFill(RememberedAfter(map[], c, opening), c, start, 1, p.maxBuckets);
    AfterConcat(map[], c, opening, fill);
    NothingEvictedAtOnce(p, State(map[], c, start), map[], start, opening + fill);
  }

  lemma {:induction false} OneKey(all: map<string, Bucket>, c: Config, key: string, now: real, n: nat)
    ensures RememberedAfter(all, c, Burst(key, now, n)).Keys == all.Keys + (if n == 0 then {} else {key})
    decreases n
  {
    if n > 0 {
      assert Burst(key, now, n)[1..] == Burst(key, now, n - 1);
      OneKey(Remember(all, c, key, now).0, c, key, now, n - 1);
    }
  }

  lemma {:induction false} AfterConcat(all: map<string, Bucket>, c: Config, a: seq<Event>, b: seq<Event>)
    requires AllCalls(a)
    ensures RememberedAfter(all, c, a + b) == RememberedAfter(RememberedAfter(all, c, a), c, b)
    decreases |a|
  {
    if a == [] {
      assert a + b == b;
    } else {
      assert (a + b)[1..] == a[1..] + b;
      assert a[0] in a && forall e | e in a[1..] :: e in a;
      AfterConcat(Remember(all, c, a[0].key, a[0].now).0, c, a[1..], b);
    }
  }

  /** The forgetful limiter accepts a whole burst after the wait. */
  lemma ForgetfulAccepts(p: Params, s: State, key: string, later: real)
    requires p.bucketExpiry > 0.0 && s.config.burst >= 1 && key != ""
    requires key !in s.buckets && |s.buckets| >= p.maxBuckets
    requires forall k | k in s.buckets :: later - s.buckets[k].lastTime > p.bucketExpiry
    ensures var tail := [Call(key, later)] + Burst("", later, s.config.burst);
            Accepted("", Answers(p, s, tail)) == s.config.burst
  {
    NewKeyClearsAll(p, s, key, later);
    var (s', ok) := Admit(p, s, key, later);
    var burst := Burst("", later, s.config.burst);
    ForgottenBurst(p, s', "", later, s.config.burst);
    assert ([Call(key, later)] + burst)[1..] == burst;
    AcceptedSkips(Answer(key, ok), Answers(p, s', burst));
  }

  lemma AcceptedSkips(first: Answer, rest: seq<Answer>)
    requires first.key != ""
    ensures Accepted("", [first] + rest) == Accepted("", rest)
  {
    assert ([first] + rest)[1..] == rest;
  }

  /** At one instant, a bucket without a whole token stays without. */
  lemma {:induction false} RefusedAtOnce(all: map<string, Bucket>, c: Config, key: string, now: real, n: nat)
    requires key in all && Refilled(all[key], c, now) < 1.0
    ensures Accepted(key, RememberedAnswers(all, c, Burst(key, now, n))) == 0
    decreases n
  {
    if n > 0 {
      var run := Burst(key, now, n);
      var (all', ok) := Remember(all, c, key, now);
      assert run[1..] == Burst(key, now, n - 1);
      assert Inflow(c, now - now) == 0.0;
      RefusedAtOnce(all', c, key, now, n - 1);
      assert ([Answer(key, ok)] + RememberedAnswers(all', c, run[1..]))[1..] == RememberedAnswers(all', c, run[1..]);
    }
  }

  lemma InflowIsNotPositive(c: Config, a: real)
    requires c.rate <= 0.0 && a >= 0.0
    ensures Inflow(c, a) <= 0.0
  {
    PositiveProduct(0.0 - c.rate, a);
  }

  /** The limiter that never forgets accepts less than a burst when the bucket has not filled up. */
  lemma RememberingRefuses(all: map<string, Bucket>, c: Config, key: string, x: real, start: real, later: real)
    requires c.burst >= 1 && key != "" && start <= later && x <= 0.0 && x + Inflow(c, later - start) < c.burst as real
    requires "" in all && all[""] == Bucket(x, start)
    ensures var tail := [Call(key, later)] + Burst("", later, c.burst);
            Accepted("", RememberedAnswers(all, c, tail)) < c.burst
  {
    var burst := Burst("", later, c.burst);
    var (all', ok) := Remember(all, c, key, later);
    assert "" in all' && all'[""] == Bucket(x, start);
    FirstEvent(Params(1, 1.0, 1.0), State(all, c, later), all, c, Call(key, later), burst);
    hide *;
    AcceptedSkips(Answer(key, ok), RememberedAnswers(all', c, burst));
    LowRefuses(all', c, x, start, later);
  }

  lemma LowRefuses(all: map<string, Bucket>, c: Config, x: real, start: real, later: real)
    requires c.burst >= 1 && start <= later && x <= 0.0 && x + Inflow(c, later - start) < c.burst as real
    requires "" in all && all[""] == Bucket(x, start)
    ensures Accepted("", RememberedAnswers(all, c, Burst("", later, c.burst))) < c.burst
  {
    BurstIsCalls("", later, c.burst);
    assert Inflow(c, later - later) == 0.0;
    hide Inflow;
    hide RememberedAnswers;
    hide Accepted;
    hide Burst;
    if Refilled(all[""], c, later) < 1.0 {
      RefusedAtOnce(all, c, "", later, c.burst);
    } else {
      if c.rate < 0.0 {
        InflowIsNotPositive(c, later - start);
      }
      AcceptedIsPaidFor(all, c, "", later, later, Burst("", later, c.burst));
    }
  }

  /** Once the wait exceeds the expiry but does not refill the bucket, the last burst tells the limiters apart. */
  lemma ProbeTells(p: Params, s: State, all: map<string, Bucket>, x: real, start: real, later: real)
    requires p.bucketExpiry > 0.0 && s.config.burst >= 1
    requires AllAt(s, all, start) && |all| >= p.maxBuckets > 0 && Filler(p.maxBuckets + 1) !in all
    requires "" in all && all[""] == Bucket(x, start) && x <= 0.0
    requires later - start > p.bucketExpiry && x + Inflow(s.config, later - start) < s.config.burst as real
    ensures var tail := [Call(Filler(p.maxBuckets + 1), later)] + Burst("", later, s.config.burst);
            Answers(p, s, tail) != RememberedAnswers(all, s.config, tail)
  {
    hide Answers;
    hide RememberedAnswers;
    hide Inflow;
    ForgetfulAccepts(p, s, Filler(p.maxBuckets + 1), later);
    RememberingRefuses(all, s.config, Filler(p.maxBuckets + 1), x, start, later);
  }

  lemma Shortest(rate: real, gap: real) returns (d: real)
    requires rate >= 0.0 && gap > 0.0
    ensures d > 0.0 && d * rate < gap
  {
    d := gap / (rate + 1.0);
    assert d * (rate + 1.0) == gap;
    if d <= 0.0 {
      PositiveProduct(0.0 - d, rate + 1.0);
    }
    assert d * (rate + 1.0) == d * rate + d;
  }

  /** A wait just longer than the expiry. */
  lemma JustExpired(p: Params, c: Config, x: real) returns (wait: real)
    requires p.bucketExpiry > 0.0 && x + Inflow(c, p.bucketExpiry) < c.burst as real
    ensures wait > p.bucketExpiry && x + Inflow(c, wait) < c.burst as real
  {
    if c.rate < 0.0 {
      wait := p.bucketExpiry + 1.0;
      hide Inflow;
      InflowIsNotPositive(c, 1.0);
      InflowAdds(c, p.bucketExpiry, 1.0);
    } else {
      var d := Shortest(c.rate, c.burst as real - x - Inflow(c, p.bucketExpiry));
      assert Inflow(c, d) == d * c.rate;
      hide Inflow;
      wait := p.bucketExpiry + d;
      InflowAdds(c, p.bucketExpiry, d);
    }
  }

  /** Fills the map under one configuration; what then tells the limiters apart makes a run that does. */
  lemma ProbeShows(p: Params, d: Config, start: real, opening: seq<Event>, x: real, rest: seq<Event>)
    requires p.bucketExpiry > 0.0 && p.cleanupInterval > 0.0 && p.maxBuckets > 0 && Opens(d, opening, start, x)
    requires Monotone(start, rest)
    requires forall s, all |
               && AllAt(s, all, start) && s.config == d && |all| >= p.maxBuckets
               && "" in all && all[""] == Bucket(x, start) && Filler(p.maxBuckets + 1) !in all ::
               Answers(p, s, rest) != RememberedAnswers(all, d, rest)
    ensures var run := opening + Fillers(start, 1, p.maxBuckets) + rest;
            Monotone(start, run) && Answers(p, State(map[], d, start), run) != RememberedAnswers(map[], d, run)
    ensures AllCalls(opening + Fillers(start, 1, p.maxBuckets))
  {
    var s0, first := State(map[], d, start), opening + Fillers(start, 1, p.maxBuckets);
    ProbeFills(p, d, start, opening, x);
    var s, all := After(p, s0, first), RememberedAfter(map[], d, first);
    StandingClock(start, first);
    hide AllAt;
    hide Opens;
    hide Answers;
    hide RememberedAnswers;
    hide Fillers;
    AnswersOfConcat(p, s0, first, rest);
    RememberedOfConcat(map[], d, first, rest);
    DifferentTails(Answers(p, s0, first), RememberedAnswers(map[], d, first), Answers(p, s, rest),
                   RememberedAnswers(all, d, rest));
    MonotoneConcat(start, first, rest);
  }

  /** The end of a probe: a new key, and then as many calls on "" as the burst allows. */
  function Tail(p: Params, c: Config, later: real): seq<Event>
    requires p.maxBuckets > 0 && c.burst >= 1
  {
    [Call(Filler(p.maxBuckets + 1), later)] + Burst("", later, c.burst)
  }

  lemma TailIsCalls(p: Params, c: Config, start: real, later: real)
    requires p.maxBuckets > 0 && c.burst >= 1 && start <= later
    ensures AllCalls(Tail(p, c, later)) && Monotone(start, Tail(p, c, later))
  {
    BurstIsCalls("", later, c.burst);
    assert Tail(p, c, later)[1..] == Burst("", later, c.burst);
  }

  /** A configuration that does not refill within the expiry gives eviction away on some run. */
  lemma EvictionShows(p: Params, c: Config, start: real) returns (run: seq<Event>)
    requires p.bucketExpiry > 0.0 && p.cleanupInterval > 0.0 && p.maxBuckets > 0
    requires c.burst >= 1 && !Refills(p, c)
    ensures AllCalls(run) && Monotone(start, run)
    ensures Answers(p, State(map[], c, start), run) != RememberedAnswers(map[], c, run)
  {
    var wait := JustExpired(p, c, 0.0);
    var later := start + wait;
    var opening, rest := Burst("", start, c.burst), Tail(p, c, later);
    run := opening + Fillers(start, 1, p.maxBuckets) + rest;
    BurstOpens(c, start);
    TailIsCalls(p, c, start, later);
    assert later - start == wait;
    forall s, all |
      && AllAt(s, all, start) && s.config == c && |all| >= p.maxBuckets
      && "" in all && all[""] == Bucket(0.0, start) && Filler(p.maxBuckets + 1) !in all
      ensures Answers(p, s, rest) != RememberedAnswers(all, c, rest)
    {
      ProbeTells(p, s, all, 0.0, start, later);
    }
    ProbeShows(p, c, start, opening, 0.0, rest);
  }

  lemma DifferentTails(a: seq<Answer>, b: seq<Answer>, s: seq<Answer>, t: seq<Answer>)
    requires |a| == |b| && s != t
    ensures a + s != b + t
  {
    assert (a + s)[|a|..] == s && (b + t)[|b|..] == t;
  }

  /** Without a burst every call is refused, whatever is remembered. */
  lemma {:induction false} NoBurstRefusesAll(p: Params, s: State, all: map<string, Bucket>, run: seq<Event>)
    requires s.config.burst <= 0 && AllCalls(run)
    ensures Answers(p, s, run) == RememberedAnswers(all, s.config, run)
    decreases |run|
  {
    if run != [] {
      var e := run[0];
      assert e in run && forall x | x in run[1..] :: x in run;
      NoBurstRefusesAll(p, Admit(p, s, e.key, e.now).0, Remember(all, s.config, e.key, e.now).0, run[1..]);
    }
  }

  /** For a fixed configuration, eviction is invisible on every run exactly when there is no burst, or an expired
      bucket is a full one. */
  lemma EvictionIsInvisibleIff(p: Params, c: Config, start: real)
    requires p.bucketExpiry > 0.0 && p.cleanupInterval > 0.0 && p.maxBuckets > 0
    ensures c.burst <= 0 || c.burst as real <= Inflow(c, p.bucketExpiry)
       <==> forall run | AllCalls(run) && Monotone(start, run) ::
              Answers(p, State(map[], c, start), run) == RememberedAnswers(map[], c, run)
  {
    hide Inflow;
    if c.burst <= 0 {
      forall run | AllCalls(run) && Monotone(start, run)
        ensures Answers(p, State(map[], c, start), run) == RememberedAnswers(map[], c, run)
      {
        NoBurstRefusesAll(p, State(map[], c, start), map[], run);
      }
    } else if Refills(p, c) {
      forall run | AllCalls(run) && Monotone(start, run)
        ensures Answers(p, State(map[], c, start), run) == RememberedAnswers(map[], c, run)
      {
        CallsStayWithin(Refilling(p), c, run);
        EvictionIsInvisible(p, c, start, run);
      }
    } else {
      var run := EvictionShows(p, c, start);
    }
  }

  // ---------------------------------------------------------------- configurations that change

  /** Puts another configuration in force. */
  function Switch(c: Config): seq<Event> {
    [SetRate(c.rate), SetBurst(c.burst)]
  }

  lemma SwitchAnswers(p: Params, s: State, all: map<string, Bucket>, c: Config, rest: seq<Event>)
    ensures Answers(p, s, Switch(c) + rest) == Answers(p, s.(config := c), rest)
    ensures RememberedAnswers(all, s.config, Switch(c) + rest) == RememberedAnswers(all, c, rest)
  {
    var one := s.config.(rate := c.rate);
    assert Switch(c) + rest == [SetRate(c.rate)] + ([SetBurst(c.burst)] + rest);
    FirstEvent(p, s, all, s.config, SetRate(c.rate), [SetBurst(c.burst)] + rest);
    FirstEvent(p, s.(config := one), all, one, SetBurst(c.burst), rest);
    assert s.(config := one).(config := c) == s.(config := c);
    hide Answers;
    hide RememberedAnswers;
  }

  lemma SwitchKeeps(allowed: iset<Config>, d: Config, c: Config, from: real, rest: seq<Event>)
    ensures Within(allowed, d, Switch(c) + rest) <==> Within(allowed, c, rest)
    ensures Monotone(from, Switch(c) + rest) <==> Monotone(from, rest)
  {
    var run := Switch(c) + rest;
    assert run[1..] == [SetBurst(c.burst)] + rest && run[1..][1..] == rest;
  }

  lemma {:induction false} WithinConcat(allowed: iset<Config>, c: Config, a: seq<Event>, b: seq<Event>)
    requires AllCalls(a) && c in allowed && Within(allowed, c, b)
    ensures Within(allowed, c, a + b)
    decreases |a|
  {
    if a == [] {
      assert a + b == b;
    } else {
      assert (a + b)[1..] == a[1..] + b;
      assert a[0] in a && forall e | e in a[1..] :: e in a;
      WithinConcat(allowed, c, a[1..], b);
    }
  }

  /** What one configuration leaves owing, another that has a burst does not pay off before the bucket is forgotten. */
  lemma DebtShows(p: Params, allowed: iset<Config>, c: Config, d: Config, start: real) returns (run: seq<Event>)
    requires p.bucketExpiry > 0.0 && p.cleanupInterval > 0.0 && p.maxBuckets > 0 && c in allowed && d in allowed
    requires c.burst >= 1 && d.burst <= 0 && d.burst as real + Inflow(c, p.bucketExpiry) < c.burst as real
    ensures Monotone(start, run) && Within(allowed, d, run)
    ensures Answers(p, State(map[], d, start), run) != RememberedAnswers(map[], d, run)
  {
    var x := d.burst as real;
    var wait := JustExpired(p, c, x);
    var later := start + wait;
    var opening, tail := [Call("", start)], Tail(p, c, later);
    var rest := Switch(c) + tail;
    run := opening + Fillers(start, 1, p.maxBuckets) + rest;
    RefusalOpens(d, start);
    TailIsCalls(p, c, start, later);
    SwitchKeeps(allowed, d, c, start, tail);
    CallsStayWithin(allowed, c, tail);
    assert later - start == wait;
    forall s, all |
      && AllAt(s, all, start) && s.config == d && |all| >= p.maxBuckets
      && "" in all && all[""] == Bucket(x, start) && Filler(p.maxBuckets + 1) !in all
      ensures Answers(p, s, rest) != RememberedAnswers(all, d, rest)
    {
      SwitchAnswers(p, s, all, c, tail);
      ProbeTells(p, s.(config := c), all, x, start, later);
    }
    ProbeShows(p, d, start, opening, x, rest);
    WithinConcat(allowed, d, opening + Fillers(start, 1, p.maxBuckets), rest);
  }

  /** A wait after which a bucket with `low` tokens, but not one with fewer, has a whole token. */
  lemma FillsToOne(c: Config, low: real) returns (wait: real)
    requires c.rate > 0.0 && low <= 0.0
    ensures wait >= 0.0 && low + Inflow(c, wait) == 1.0
  {
    wait := (1.0 - low) / c.rate;
    assert wait * c.rate == 1.0 - low;
    if wait < 0.0 {
      NegativeProduct(wait, c.rate);
    }
  }

  /** The two calls under a configuration without a burst: the limiters refuse both, and hold different buckets. */
  lemma HoldDifferent(p: Params, s: State, all: map<string, Bucket>, x: real, start: real, later: real, key: string)
    requires p.bucketExpiry > 0.0 && s.config.burst <= 0 && key != "" && AllAt(s, all, start)
    requires key !in all && |all| >= p.maxBuckets > 0 && "" in all && all[""] == Bucket(x, start)
    requires later - start > p.bucketExpiry && x + Inflow(s.config, later - start) < s.config.burst as real
    ensures var (s1, all1) := (Admit(p, s, key, later).0, Remember(all, s.config, key, later).0);
            var (s2, all2) := (Admit(p, s1, "", later).0, Remember(all1, s.config, "", later).0);
            && s1.config == s2.config == s.config
            && "" in s2.buckets && s2.buckets[""] == Bucket(s.config.burst as real, later)
            && "" in all2 && all2[""] == Bucket(x + Inflow(s.config, later - start), later)
  {
    NewKeyClearsAll(p, s, key, later);
    assert Inflow(s.config, later - later) == 0.0;
    hide Inflow;
    var s1, all1 := Admit(p, s, key, later).0, Remember(all, s.config, key, later).0;
    assert "" !in s1.buckets && "" in all1 && all1[""] == Bucket(x, start);
  }

  /** Once a configuration with a burst is in force, the higher bucket, or a full one in its place, has a token first. */
  lemma HigherFirst(p: Params, s: State, all: map<string, Bucket>, c: Config, low: real, lower: real, t: real, wait: real)
    requires s.config == c && c.burst >= 1 && wait >= 0.0 && lower < low && low + Inflow(c, wait) == 1.0
    requires "" in s.buckets && s.buckets[""] == Bucket(low, t) && "" in all && all[""] == Bucket(lower, t)
    ensures Admit(p, s, "", t + wait).1 && !Remember(all, c, "", t + wait).1
  {
    assert t + wait - t == wait && Inflow(c, t + wait - (t + wait)) == 0.0;
    hide Inflow;
    hide Evicted;
  }

  lemma TwoRefusals(p: Params, s: State, all: map<string, Bucket>, key: string, later: real, rest: seq<Event>)
    requires var (s1, all1) := (Admit(p, s, key, later).0, Remember(all, s.config, key, later).0);
             var (s2, all2) := (Admit(p, s1, "", later).0, Remember(all1, s.config, "", later).0);
             s1.config == s.config && Answers(p, s2, rest) != RememberedAnswers(all2, s.config, rest)
    ensures var run := [Call(key, later)] + ([Call("", later)] + rest);
            Answers(p, s, run) != RememberedAnswers(all, s.config, run)
  {
    var s1, all1 := Admit(p, s, key, later).0, Remember(all, s.config, key, later).0;
    var s2, all2 := Admit(p, s1, "", later).0, Remember(all1, s.config, "", later).0;
    FirstEvent(p, s, all, s.config, Call(key, later), [Call("", later)] + rest);
    FirstEvent(p, s1, all1, s.config, Call("", later), rest);
    var ok, ok' := Answer("", Admit(p, s1, "", later).1), Answer("", Remember(all1, s.config, "", later).1);
    var first, first' := Answer(key, Admit(p, s, key, later).1), Answer(key, Remember(all, s.config, key, later).1);
    DifferentTails([ok], [ok'], Answers(p, s2, rest), RememberedAnswers(all2, s.config, rest));
    DifferentTails([first], [first'], [ok] + Answers(p, s2, rest), [ok'] + RememberedAnswers(all2, s.config, rest));
    hide *;
  }

  /** Between calls on a bucket that owes, a configuration without a burst lets the limiters drift apart, and one with a
      burst then tells. */
  lemma DriftShows(p: Params, allowed: iset<Config>, c: Config, d: Config, b: Config, start: real) returns (run: seq<Event>)
    requires p.bucketExpiry > 0.0 && p.cleanupInterval > 0.0 && p.maxBuckets > 0
    requires c in allowed && d in allowed && b in allowed && b.burst >= 1 && b.rate > 0.0
    requires c.burst <= 0 && d.burst <= 0 && d.burst as real + Inflow(c, p.bucketExpiry) < c.burst as real
    ensures Monotone(start, run) && Within(allowed, d, run)
    ensures Answers(p, State(map[], d, start), run) != RememberedAnswers(map[], d, run)
  {
    var x, low, key := d.burst as real, c.burst as real, Filler(p.maxBuckets + 1);
    var wait := JustExpired(p, c, x);
    var later := start + wait;
    var more := FillsToOne(b, low);
    var end := later + more;
    var last := [Call("", end)] + [];
    var mid := [Call(key, later)] + ([Call("", later)] + (Switch(b) + last));
    var opening, rest := [Call("", start)], Switch(c) + mid;
    run := opening + Fillers(start, 1, p.maxBuckets) + rest;
    RefusalOpens(d, start);
    DriftIsRun(allowed, c, d, b, start, later, end, key);
    assert later - start == wait;
    forall s, all |
      && AllAt(s, all, start) && s.config == d && |all| >= p.maxBuckets
      && "" in all && all[""] == Bucket(x, start) && Filler(p.maxBuckets + 1) !in all
      ensures Answers(p, s, rest) != RememberedAnswers(all, d, rest)
    {
      DriftTells(p, s, all, c, b, x, start, later, more, key);
    }
    ProbeShows(p, d, start, opening, x, rest);
    WithinConcat(allowed, d, opening + Fillers(start, 1, p.maxBuckets), rest);
  }

  lemma DriftIsRun(allowed: iset<Config>, c: Config, d: Config, b: Config, start: real, later: real, end: real, key: string)
    requires c in allowed && b in allowed && start <= later <= end
    ensures var rest := Switch(c) + ([Call(key, later)] + ([Call("", later)] + (Switch(b) + ([Call("", end)] + []))));
            Monotone(start, rest) && Within(allowed, d, rest)
  {
    var last := [Call("", end)] + [];
    var two := [Call("", later)] + (Switch(b) + last);
    var mid := [Call(key, later)] + two;
    assert last[1..] == [] && two[1..] == Switch(b) + last && mid[1..] == two;
    SwitchKeeps(allowed, c, b, later, last);
    SwitchKeeps(allowed, d, c, start, mid);
  }

  lemma DriftTells(p: Params, s: State, all: map<string, Bucket>, c: Config, b: Config, x: real, start: real, later: real,
      more: real, key: string)
    requires p.bucketExpiry > 0.0 && c.burst <= 0 && key != "" && AllAt(s, all, start)
    requires key !in all && |all| >= p.maxBuckets > 0 && "" in all && all[""] == Bucket(x, start)
    requires later - start > p.bucketExpiry && x + Inflow(c, later - start) < c.burst as real
    requires b.burst >= 1 && more >= 0.0 && c.burst as real + Inflow(b, more) == 1.0
    ensures var rest := Switch(c) + ([Call(key, later)] + ([Call("", later)] + (Switch(b) + ([Call("", later + more)] + []))));
            Answers(p, s, rest) != RememberedAnswers(all, s.config, rest)
  {
    var mid := [Call(key, later)] + ([Call("", later)] + (Switch(b) + ([Call("", later + more)] + [])));
    var s0 := s.(config := c);
    SwitchAnswers(p, s, all, c, mid);
    HoldDifferent(p, s0, all, x, start, later, key);
    var s1, all1 := Admit(p, s0, key, later).0, Remember(all, c, key, later).0;
    var s2, all2 := Admit(p, s1, "", later).0, Remember(all1, c, "", later).0;
    hide *;
    LastCallTells(p, s2, all2, b, c.burst as real, x + Inflow(c, later - start), later, more);
    TwoRefusals(p, s0, all, key, later, Switch(b) + ([Call("", later + more)] + []));
  }

  lemma LastCallTells(p: Params, s: State, all: map<string, Bucket>, b: Config, low: real, lower: real, t: real, wait: real)
    requires b.burst >= 1 && wait >= 0.0 && lower < low && low + Inflow(b, wait) == 1.0
    requires "" in s.buckets && s.buckets[""] == Bucket(low, t) && "" in all && all[""] == Bucket(lower, t)
    ensures var rest := Switch(b) + ([Call("", t + wait)] + []);
            Answers(p, s, rest) != RememberedAnswers(all, s.config, rest)
  {
    var last := [Call("", t + wait)] + [];
    HigherFirst(p, s.(config := b), all, b, low, lower, t, wait);
    SwitchAnswers(p, s, all, b, last);
    FirstEvent(p, s.(config := b), all, b, Call("", t + wait), []);
    hide *;
    assert Answers(p, s.(config := b), last)[0] != RememberedAnswers(all, b, last)[0];
  }

  /** Eviction never shows on a run whose calls all fall under allowed configurations. */
  ghost predicate NeverShows(p: Params, allowed: iset<Config>, start: real) {
    forall c, run | c in allowed && Monotone(start, run) && Within(allowed, c, run) ::
      Answers(p, State(map[], c, start), run) == RememberedAnswers(map[], c, run)
  }

  lemma {:induction false} NoBurstsRefuseAll(p: Params, allowed: iset<Config>, s: State, all: map<string, Bucket>,
      run: seq<Event>)
    requires (forall c | c in allowed :: c.burst <= 0) && Within(allowed, s.config, run)
    ensures Answers(p, s, run) == RememberedAnswers(all, s.config, run)
    decreases |run|
  {
    if run != [] {
      var e := run[0];
      if e.Call? {
        NoBurstsRefuseAll(p, allowed, Admit(p, s, e.key, e.now).0, Remember(all, s.config, e.key, e.now).0, run[1..]);
      } else {
        NoBurstsRefuseAll(p, allowed, s.(config := Configured(s.config, e)), all, run[1..]);
      }
    }
  }

  /** Configurations that do not settle give eviction away, as soon as one of them has a burst. */
  lemma UnsettledShows(p: Params, allowed: iset<Config>, b: Config, start: real)
    requires p.bucketExpiry > 0.0 && p.cleanupInterval > 0.0 && p.maxBuckets > 0
    requires b in allowed && b.burst >= 1 && !Settles(p, allowed)
    ensures !NeverShows(p, allowed, start)
  {
    var c, d :| c in allowed && d in allowed && c.burst as real > Lowest(d) + Inflow(c, p.bucketExpiry);
    if !Refills(p, b) {
      var run := EvictionShows(p, b, start);
      CallsStayWithin(allowed, b, run);
    } else if c.burst >= 1 && !Refills(p, c) {
      var run := EvictionShows(p, c, start);
      CallsStayWithin(allowed, c, run);
    } else if c.burst >= 1 {
      var run := DebtShows(p, allowed, c, d, start);
    } else {
      RateIsPositive(p, b);
      hide Inflow;
      if d.burst <= 0 {
        var run := DriftShows(p, allowed, c, d, b, start);
      } else {
        var run := DriftShows(p, allowed, c, c, b, start);
      }
    }
  }

  lemma RateIsPositive(p: Params, c: Config)
    requires c.burst >= 1 && Refills(p, c) && p.bucketExpiry > 0.0
    ensures c.rate > 0.0
  {
    if c.rate < 0.0 {
      NegativeProduct(c.rate, p.bucketExpiry);
    }
  }

  /** For configurations that may change during a run, eviction never shows if and only if none of them has a burst, or
      under each of them a bucket is full again when it expires, however low any of them left it. */
  lemma EvictionNeverShowsIff(p: Params, allowed: iset<Config>, start: real)
    requires p.bucketExpiry > 0.0 && p.cleanupInterval > 0.0 && p.maxBuckets > 0
    ensures NeverShows(p, allowed, start) <==> (forall c | c in allowed :: c.burst <= 0) || Settles(p, allowed)
  {
    if forall c | c in allowed :: c.burst <= 0 {
      forall c, run | c in allowed && Monotone(start, run) && Within(allowed, c, run)
        ensures Answers(p, State(map[], c, start), run) == RememberedAnswers(map[], c, run)
      {
        NoBurstsRefuseAll(p, allowed, State(map[], c, start), map[], run);
      }
    } else if Settles(p, allowed) {
      forall c, run | c in allowed && Monotone(start, run) && Within(allowed, c, run)
        ensures Answers(p, State(map[], c, start), run) == RememberedAnswers(map[], c, run)
      {
        EvictionIsInvisibleWithin(p, allowed, c, start, run);
      }
    } else {
      var b :| b in allowed && b.burst >= 1;
      UnsettledShows(p, allowed, b, start);
    }
  }

  lemma InDebt(p: Params, c: Config)
    requires p == Params(10, 1.0, 10.0) && c == Config(1.0, -20)
    ensures var owing := map["k" := Bucket(-20.0, 0.0)];
            && Admit(p, State(map[], c, 0.0), "k", 0.0) == (State(owing, c, 0.0), false)
            && Remember(map[], c, "k", 0.0) == (owing, false)
  {
    assert Refilled(Full(c, 0.0), c, 0.0) == -20.0;
    assert map["k" := Full(c, 0.0)]["k" := Bucket(-20.0, 0.0)] == map["k" := Bucket(-20.0, 0.0)];
  }

  lemma DebtIsCovered(p: Params, c: Config, raised: Config)
    requires p.bucketExpiry == 10.0 && c == Config(1.0, -20) && raised == Config(1.0, 1)
    ensures c.burst as real <= Inflow(c, p.bucketExpiry) && raised.burst as real <= Inflow(raised, p.bucketExpiry)
  {
  }

  lemma DebtForgiven(p: Params, c: Config)
    requires p == Params(10, 1.0, 10.0) && c == Config(1.0, 1)
    ensures var owing := map["k" := Bucket(-20.0, 0.0)];
            Admit(p, State(owing, c, 0.0), "k", 11.0).1 && !Remember(owing, c, "k", 11.0).1
  {
    assert Evicted(p, map["k" := Bucket(-20.0, 0.0)], 11.0) == map[];
    assert Refilled(Full(c, 11.0), c, 11.0) == 1.0;
    assert Refilled(Bucket(-20.0, 0.0), c, 11.0) == -9.0;
  }

  lemma FirstEvent(p: Params, s: State, all: map<string, Bucket>, c: Config, e: Event, rest: seq<Event>)
    ensures Answers(p, s, [e] + rest)
         == if e.Call? then [Answer(e.key, Admit(p, s, e.key, e.now).1)] + Answers(p, Admit(p, s, e.key, e.now).0, rest)
            else Answers(p, s.(config := Configured(s.config, e)), rest)
    ensures RememberedAnswers(all, c, [e] + rest)
         == if e.Call? then
              [Answer(e.key, Remember(all, c, e.key, e.now).1)] + RememberedAnswers(Remember(all, c, e.key, e.now).0, c, rest)
            else RememberedAnswers(all, Configured(c, e), rest)
  {
    hide Admit;
    hide Remember;
    assert ([e] + rest)[1..] == rest;
  }

  lemma ThirdEventTells(p: Params, s: State, c: Config, key: string, t0: real, burst: int, t1: real,
      owing: map<string, Bucket>)
    requires Admit(p, s, key, t0) == (State(owing, c, t0), false) && Remember(map[], c, key, t0) == (owing, false)
    requires Admit(p, State(owing, c.(burst := burst), t0), key, t1).1
        && !Remember(owing, c.(burst := burst), key, t1).1
    ensures var run := [Call(key, t0)] + ([SetBurst(burst)] + ([Call(key, t1)] + []));
            Answers(p, s, run) != RememberedAnswers(map[], c, run)
  {
    var last := [Call(key, t1)] + [];
    FirstEvent(p, s, map[], c, Call(key, t0), [SetBurst(burst)] + last);
    FirstEvent(p, State(owing, c, t0), owing, c, SetBurst(burst), last);
    FirstEvent(p, State(owing, c.(burst := burst), t0), owing, c.(burst := burst), Call(key, t1), []);
    hide Admit;
    hide Remember;
    hide Answers;
    hide RememberedAnswers;
    var rest := [SetBurst(burst)] + last;
    var forgetful, remembering := Answers(p, State(owing, c, t0), rest), RememberedAnswers(owing, c, rest);
    assert forgetful[0] == Answer(key, true) && remembering[0] == Answer(key, false);
    DifferentTails([Answer(key, false)], [Answer(key, false)], forgetful, remembering);
  }

  /** A burst below zero leaves a debt that eviction forgives: once the burst is raised, the limiters differ, although
      every configuration's burst is at most what flows in until a bucket expires. */
  lemma NegativeBurstLeavesDebt()
    ensures var p, c := Params(10, 1.0, 10.0), Config(1.0, -20);
            var run := [Call("k", 0.0)] + ([SetBurst(1)] + ([Call("k", 11.0)] + []));
            && c.burst as real <= Inflow(c, p.bucketExpiry) && 1.0 <= Inflow(c.(burst := 1), p.bucketExpiry)
            && Answers(p, State(map[], c, 0.0), run) != RememberedAnswers(map[], c, run)
  {
    var p, c := Params(10, 1.0, 10.0), Config(1.0, -20);
    DebtIsCovered(p, c, c.(burst := 1));
    hide *;
    InDebt(p, c);
    DebtForgiven(p, c.(burst := 1));
    ThirdEventTells(p, State(map[], c, 0.0), c, "k", 0.0, 1, 11.0, map["k" := Bucket(-20.0, 0.0)]);
  }
}
