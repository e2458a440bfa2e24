/** The token-bucket limiter of internal/middleware/ratelimit.go. Time is a real number of seconds
    that each call is given; tokens are real numbers. */
module RateLimiting {
  import opened Wrappers

  datatype Bucket = Bucket(tokens: real, lastTime: real)

  datatype Config = Config(rate: real, burst: int)

  datatype Params = Params(maxBuckets: int, cleanupInterval: real, bucketExpiry: real)

  datatype State = State(buckets: map<string, Bucket>, config: Config, lastCleanup: real)

  function Full(c: Config, now: real): Bucket {
    Bucket(c.burst as real, now)
  }

  /** The tokens that flow in over a time. */
  function Inflow(c: Config, elapsed: real): real {
    elapsed * c.rate
  }

  lemma InflowAdds(c: Config, a: real, b: real)
    ensures Inflow(c, a + b) == Inflow(c, a) + Inflow(c, b)
  {
  }

  lemma InflowIsNonNegative(c: Config, a: real)
    requires c.rate >= 0.0 && a >= 0.0
    ensures Inflow(c, a) >= 0.0
  {
  }

  /** The tokens after the time since the last call, capped at the burst. */
  function Refilled(b: Bucket, c: Config, now: real): real {
    var tokens := b.tokens + Inflow(c, now - b.lastTime);
    if tokens > c.burst as real then c.burst as real else tokens
  }

  /** One call on a bucket: it takes a token if there is a whole one. */
  function Spend(b: Bucket, c: Config, now: real): (Bucket, bool) {
    var tokens := Refilled(b, c, now);
    if tokens < 1.0 then (Bucket(tokens, now), false) else (Bucket(tokens - 1.0, now), true)
  }

  function Evicted(p: Params, buckets: map<string, Bucket>, now: real): map<string, Bucket> {
    map k | k in buckets && now - buckets[k].lastTime <= p.bucketExpiry :: buckets[k]
  }

  /** The buckets there are when a call comes to its own. */
  function LeftOver(p: Params, s: State, key: string, now: real): map<string, Bucket> {
    var kept := if now - s.lastCleanup > p.cleanupInterval then Evicted(p, s.buckets, now) else s.buckets;
    if key !in kept && |kept| >= p.maxBuckets then Evicted(p, kept, now) else kept
  }

  /** One call of the limiter. A key without a bucket starts with a full one. */
  function Admit(p: Params, s: State, key: string, now: real): (State, bool) {
    var left := LeftOver(p, s, key, now);
    var (b, ok) := Spend(if key in left then left[key] else Full(s.config, now), s.config, now);
    (State(left[key := b], s.config, if now - s.lastCleanup > p.cleanupInterval then now else s.lastCleanup), ok)
  }

  class RateLimiter {
    var buckets: map<string, Bucket>
    var rate: real
    var burst: int
    var lastCleanup: real
    const params: Params

    ghost function Abs(): State
      reads this
    {
      State(buckets, Config(rate, burst), lastCleanup)
    }

    /** Settings that are not positive fall back to the defaults. */
    constructor (rate: real, burst: int, maxBuckets: int, cleanupInterval: real, bucketExpiry: real, now: real)
      ensures Abs() == State(map[], Config(rate, burst), now)
      ensures params == Params(if maxBuckets > 0 then maxBuckets else 100000,
                               if cleanupInterval > 0.0 then cleanupInterval else 300.0,
                               if bucketExpiry > 0.0 then bucketExpiry else 600.0)
    {
      this.buckets, this.rate, this.burst, this.lastCleanup := map[], rate, burst, now;
      this.params := Params(if maxBuckets > 0 then maxBuckets else 100000,
                            if cleanupInterval > 0.0 then cleanupInterval else 300.0,
                            if bucketExpiry > 0.0 then bucketExpiry else 600.0);
    }

    method Cleanup(now: real)
      modifies this`buckets
      ensures buckets == Evicted(params, old(buckets), now)
    {
      var todo := buckets.Keys;
      while todo != {}
        invariant todo <= buckets.Keys <= old(buckets).Keys
        invariant forall k | k in buckets :: buckets[k] == old(buckets)[k]
        invariant forall k | k in old(buckets) && k !in todo ::
                    k in buckets <==> now - old(buckets)[k].lastTime <= params.bucketExpiry
        invariant forall k | k in todo :: k in buckets
        decreases todo
      {
        var key :| key in todo;
        todo := todo - {key};
        if now - buckets[key].lastTime > params.bucketExpiry {
          buckets := buckets - {key};
        }
      }
    }

    /** The cleanups of a call: one when it is due, and one when a new key finds the map full. */
    method MakeRoom(key: string, now: real)
      modifies this`buckets, this`lastCleanup
      ensures buckets == LeftOver(params, old(Abs()), key, now)
      ensures lastCleanup == if now - old(lastCleanup) > params.cleanupInterval then now else old(lastCleanup)
    {
      if now - lastCleanup > params.cleanupInterval {
        Cleanup(now);
        lastCleanup := now;
      }
      if key !in buckets {
        if |buckets| >= params.maxBuckets {
          Cleanup(now);
        }
      }
    }

    /** Refills the key's bucket and takes a token, if there is one. */
    method TakeToken(key: string, now: real) returns (ok: bool)
      requires key in buckets
      modifies this`buckets
      ensures var (b, allowed) := Spend(old(buckets)[key], Config(rate, burst), now);
              ok == allowed && buckets == old(buckets)[key := b]
    {
      var bucket := buckets[key];
      var elapsed := now - bucket.lastTime;
      var inflow := elapsed * rate;
      assert inflow == Inflow(Config(rate, burst), elapsed);
      hide Inflow;
      var tokens := bucket.tokens + inflow;
      if tokens > burst as real {
        tokens := burst as real;
      }
      if tokens < 1.0 {
        buckets := buckets[key := Bucket(tokens, now)];
        return false;
      }
      buckets := buckets[key := Bucket(tokens - 1.0, now)];
      return true;
    }

    method Allow(key: string, now: real) returns (ok: bool)
      modifies this`buckets, this`lastCleanup
      ensures (Abs(), ok) == Admit(params, old(Abs()), key, now)
    {
      MakeRoom(key, now);
      hide LeftOver;
      hide Spend;
      ghost var left := buckets;
      if key !in buckets {
        buckets := buckets[key := Bucket(burst as real, now)];
      }
      ok := TakeToken(key, now);
      ghost var b := buckets[key];
      assert left[key := Full(Config(rate, burst), now)][key := b] == left[key := b];
    }

    method UpdateRate(r: real)
      modifies this`rate
      ensures Abs() == old(Abs()).(config := old(Abs()).config.(rate := r))
    {
      rate := r;
    }

    method UpdateBurst(b: int)
      modifies this`burst
      ensures Abs() == old(Abs()).(config := old(Abs()).config.(burst := b))
    {
      burst := b;
    }
  }

  // ---------------------------------------------------------------- runs

  datatype Event = Call(key: string, now: real) | SetRate(rate: real) | SetBurst(burst: int)

  datatype Answer = Answer(key: string, ok: bool)

  function Configured(c: Config, e: Event): Config {
    match e
    case Call(_, _) => c
    case SetRate(r) => c.(rate := r)
    case SetBurst(b) => c.(burst := b)
  }

  /** The answers the limiter gives over a run. */
  function Answers(p: Params, s: State, run: seq<Event>): seq<Answer>
    decreases |run|
  {
    if run == [] then []
    else if run[0].Call? then
      var (s', ok) := Admit(p, s, run[0].key, run[0].now);
      [Answer(run[0].key, ok)] + Answers(p, s', run[1..])
    else
      Answers(p, s.(config := Configured(s.config, run[0])), run[1..])
  }

  /** A call of a limiter that never deletes a bucket. */
  function Remember(buckets: map<string, Bucket>, c: Config, key: string, now: real): (map<string, Bucket>, bool) {
    var (b, ok) := Spend(if key in buckets then buckets[key] else Full(c, now), c, now);
    (buckets[key := b], ok)
  }

  /** The answers of a limiter that never deletes a bucket. */
  function RememberedAnswers(buckets: map<string, Bucket>, c: Config, run: seq<Event>): seq<Answer>
    decreases |run|
  {
    if run == [] then []
    else if run[0].Call? then
      var (buckets', ok) := Remember(buckets, c, run[0].key, run[0].now);
      [Answer(run[0].key, ok)] + RememberedAnswers(buckets', c, run[1..])
    else
      RememberedAnswers(buckets, Configured(c, run[0]), run[1..])
  }

  /** The clock does not run backwards. */
  ghost predicate Monotone(from: real, run: seq<Event>)
    decreases |run|
  {
    run == []
    || (if run[0].Call? then from <= run[0].now && Monotone(run[0].now, run[1..]) else Monotone(from, run[1..]))
  }

  /** A bucket left alone until it expires is full again. */
  predicate Refills(p: Params, c: Config) {
    0.0 <= c.burst as real <= Inflow(c, p.bucketExpiry)
  }

  /** Every configuration in force at a call of the run is in `allowed`. */
  ghost predicate Within(allowed: iset<Config>, c: Config, run: seq<Event>)
    decreases |run|
  {
    run == []
    || ((run[0].Call? ==> c in allowed) && Within(allowed, Configured(c, run[0]), run[1..]))
  }

  ghost function Refilling(p: Params): iset<Config> {
    iset c: Config | Refills(p, c)
  }

  /** Every configuration in force at a call of the run refills. */
  ghost predicate AlwaysRefills(p: Params, c: Config, run: seq<Event>) {
    Within(Refilling(p), c, run)
  }

  /** The lowest a bucket can be after a call under a configuration, unless it was lower before. */
  function Lowest(c: Config): real {
    if c.burst < 0 then c.burst as real else 0.0
  }

  /** Under each configuration a bucket left alone until it expires is full again, however low another one left it. */
  ghost predicate Settles(p: Params, allowed: iset<Config>) {
    forall c, d | c in allowed && d in allowed :: c.burst as real <= Lowest(d) + Inflow(c, p.bucketExpiry)
  }

  /** A number of tokens that the configurations can leave. */
  ghost predicate Backed(allowed: iset<Config>, tokens: real) {
    0.0 <= tokens || exists d :: d in allowed && Lowest(d) <= tokens
  }

  // ---------------------------------------------------------------- eviction is invisible

  /** What was forgotten had expired; what was not is the same. */
  ghost predicate Agree(p: Params, allowed: iset<Config>, buckets: map<string, Bucket>, all: map<string, Bucket>, now: real) {
    && (forall k | k in buckets :: k in all && all[k] == buckets[k])
    && (forall k | k in all && k !in buckets :: now - all[k].lastTime > p.bucketExpiry)
    && (forall k | k in all :: Backed(allowed, all[k].tokens) && all[k].lastTime <= now)
  }

  lemma NegativeProduct(a: real, b: real)
    requires a < 0.0 && b > 0.0
    ensures a * b < 0.0
  {
  }

  lemma PositiveProduct(a: real, b: real)
    requires a >= 0.0 && b >= 0.0
    ensures a * b >= 0.0
  {
  }

  lemma InflowTellsRate(c: Config, elapsed: real)
    requires elapsed > 0.0 && Inflow(c, elapsed) >= 0.0
    ensures c.rate >= 0.0
  {
    if c.rate < 0.0 {
      NegativeProduct(c.rate, elapsed);
    }
  }

  lemma RateIsNonNegative(p: Params, allowed: iset<Config>, c: Config)
    requires Settles(p, allowed) && c in allowed && p.bucketExpiry > 0.0
    ensures c.rate >= 0.0
  {
    hide Inflow;
    assert c.burst as real <= Lowest(c) + Inflow(c, p.bucketExpiry);
    InflowTellsRate(c, p.bucketExpiry);
  }

  lemma RefillingSettles(p: Params)
    ensures Settles(p, Refilling(p))
    ensures forall tokens :: Backed(Refilling(p), tokens) ==> tokens >= 0.0
  {
    hide Inflow;
  }

  lemma ExpiredIsFull(p: Params, allowed: iset<Config>, c: Config, b: Bucket, now: real)
    requires Settles(p, allowed) && c in allowed && p.bucketExpiry > 0.0
    requires Backed(allowed, b.tokens) && now - b.lastTime > p.bucketExpiry
    ensures Refilled(b, c, now) == c.burst as real == Refilled(Full(c, now), c, now)
  {
    RateIsNonNegative(p, allowed, c);
    assert Inflow(c, now - now) == 0.0;
    hide Inflow;
    var over := now - b.lastTime - p.bucketExpiry;
    InflowIsNonNegative(c, over);
    InflowAdds(c, over, p.bucketExpiry);
    assert over + p.bucketExpiry == now - b.lastTime;
    assert c.burst as real <= Lowest(c) + Inflow(c, p.bucketExpiry);
  }

  lemma SpendKeepsBacked(p: Params, allowed: iset<Config>, c: Config, b: Bucket, now: real)
    requires Settles(p, allowed) && c in allowed && p.bucketExpiry > 0.0
    requires (Backed(allowed, b.tokens) && b.lastTime <= now) || b == Full(c, now)
    ensures Backed(allowed, Spend(b, c, now).0.tokens) && Spend(b, c, now).0.lastTime == now
  {
    RateIsNonNegative(p, allowed, c);
    hide Inflow;
    InflowIsNonNegative(c, now - b.lastTime);
    assert Lowest(c) <= c.burst as real;
  }

  lemma EvictionAgrees(p: Params, allowed: iset<Config>, buckets: map<string, Bucket>, all: map<string, Bucket>, now: real)
    requires Agree(p, allowed, buckets, all, now)
    ensures Agree(p, allowed, Evicted(p, buckets, now), all, now)
  {
    hide Backed;
  }

  lemma AllowAgrees(p: Params, allowed: iset<Config>, s: State, all: map<string, Bucket>, key: string, from: real, now: real)
    requires p.bucketExpiry > 0.0 && Settles(p, allowed) && s.config in allowed
    requires from <= now && Agree(p, allowed, s.buckets, all, from)
    ensures Admit(p, s, key, now).1 == Remember(all, s.config, key, now).1
    ensures Agree(p, allowed, Admit(p, s, key, now).0.buckets, Remember(all, s.config, key, now).0, now)
  {
    var left, c := LeftOver(p, s, key, now), s.config;
    LaterAgrees(p, allowed, s.buckets, all, from, now);
    LeftOverAgrees(p, allowed, s, all, key, now);
    BucketAgrees(p, allowed, c, left, all, key, now);
    UpdateAgrees(p, allowed, left, all, key, Spend(if key in all then all[key] else Full(c, now), c, now).0, now);
    hide Agree;
    hide Settles;
    hide Spend;
    hide Full;
    hide Admit;
    hide LeftOver;
  }

  lemma LeftOverAgrees(p: Params, allowed: iset<Config>, s: State, all: map<string, Bucket>, key: string, now: real)
    requires Agree(p, allowed, s.buckets, all, now)
    ensures Agree(p, allowed, LeftOver(p, s, key, now), all, now)
  {
    var kept := if now - s.lastCleanup > p.cleanupInterval then Evicted(p, s.buckets, now) else s.buckets;
    EvictionAgrees(p, allowed, s.buckets, all, now);
    EvictionAgrees(p, allowed, kept, all, now);
    hide Agree;
    hide Evicted;
  }

  lemma LaterAgrees(p: Params, allowed: iset<Config>, buckets: map<string, Bucket>, all: map<string, Bucket>, now: real,
      later: real)
    requires Agree(p, allowed, buckets, all, now) && now <= later
    ensures Agree(p, allowed, buckets, all, later)
  {
    hide Backed;
  }

  /** A call does the same to a bucket that was kept, and to a full one in place of a forgotten one. */
  lemma BucketAgrees(p: Params, allowed: iset<Config>, c: Config, buckets: map<string, Bucket>, all: map<string, Bucket>,
      key: string, now: real)
    requires p.bucketExpiry > 0.0 && Settles(p, allowed) && c in allowed && Agree(p, allowed, buckets, all, now)
    ensures var (b, ok) := Spend(if key in all then all[key] else Full(c, now), c, now);
            && Spend(if key in buckets then buckets[key] else Full(c, now), c, now) == (b, ok)
            && Backed(allowed, b.tokens) && b.lastTime == now
  {
    SpendKeepsBacked(p, allowed, c, if key in all then all[key] else Full(c, now), now);
    if key in all && key !in buckets {
      ExpiredIsFull(p, allowed, c, all[key], now);
    }
    hide Backed;
    hide Settles;
    hide Inflow;
  }

  lemma UpdateAgrees(p: Params, allowed: iset<Config>, buckets: map<string, Bucket>, all: map<string, Bucket>, key: string,
      b: Bucket, now: real)
    requires Agree(p, allowed, buckets, all, now) && Backed(allowed, b.tokens) && b.lastTime <= now
    ensures Agree(p, allowed, buckets[key := b], all[key := b], now)
  {
    hide Backed;
  }

  lemma {:induction false} AnswersAgree(p: Params, allowed: iset<Config>, s: State, all: map<string, Bucket>, from: real,
      run: seq<Event>)
    requires p.bucketExpiry > 0.0 && Settles(p, allowed) && Agree(p, allowed, s.buckets, all, from)
    requires Monotone(from, run) && Within(allowed, s.config, run)
    ensures Answers(p, s, run) == RememberedAnswers(all, s.config, run)
    decreases |run|
  {
    hide Agree;
    hide Settles;
    if run != [] {
      var e := run[0];
      if e.Call? {
        AllowAgrees(p, allowed, s, all, e.key, from, e.now);
        AnswersAgree(p, allowed, Admit(p, s, e.key, e.now).0, Remember(all, s.config, e.key, e.now).0, e.now, run[1..]);
      } else {
        AnswersAgree(p, allowed, s.(config := Configured(s.config, e)), all, from, run[1..]);
      }
    }
  }

  /** Eviction is invisible under configurations that settle: over every run, a fresh limiter answers as one that never
      forgets. */
  lemma EvictionIsInvisibleWithin(p: Params, allowed: iset<Config>, c: Config, start: real, run: seq<Event>)
    requires p.bucketExpiry > 0.0 && Settles(p, allowed) && Monotone(start, run) && Within(allowed, c, run)
    ensures Answers(p, State(map[], c, start), run) == RememberedAnswers(map[], c, run)
  {
    AnswersAgree(p, allowed, State(map[], c, start), map[], start, run);
  }

  /** In particular when every configuration refills a bucket before it expires. */
  lemma EvictionIsInvisible(p: Params, c: Config, start: real, run: seq<Event>)
    requires p.bucketExpiry > 0.0 && Monotone(start, run) && AlwaysRefills(p, c, run)
    ensures Answers(p, State(map[], c, start), run) == RememberedAnswers(map[], c, run)
  {
    RefillingSettles(p);
    EvictionIsInvisibleWithin(p, Refilling(p), c, start, run);
  }

  // ---------------------------------------------------------------- one key at a time

  /** The run without other keys' calls. */
  function Only(key: string, run: seq<Event>): seq<Event> {
    if run == [] then []
    else if run[0].Call? && run[0].key != key then Only(key, run[1..])
    else [run[0]] + Only(key, run[1..])
  }

  function AnswersFor(key: string, answers: seq<Answer>): seq<bool> {
    if answers == [] then []
    else if answers[0].key == key then [answers[0].ok] + AnswersFor(key, answers[1..])
    else AnswersFor(key, answers[1..])
  }

  ghost predicate SameBucket(a: map<string, Bucket>, b: map<string, Bucket>, key: string) {
    (key in a <==> key in b) && (key in a ==> a[key] == b[key])
  }

  lemma {:induction false} KeysAreApart(a: map<string, Bucket>, b: map<string, Bucket>, c: Config, key: string,
      run: seq<Event>)
    requires SameBucket(a, b, key)
    ensures AnswersFor(key, RememberedAnswers(a, c, run)) == AnswersFor(key, RememberedAnswers(b, c, Only(key, run)))
    decreases |run|
  {
    if run != [] {
      var e, rest := run[0], run[1..];
      if e.Call? {
        var (a', ok) := Remember(a, c, e.key, e.now);
        if e.key == key {
          var (b', ok') := Remember(b, c, e.key, e.now);
          KeysAreApart(a', b', c, key, rest);
          FirstAnswer(key, Answer(key, ok), RememberedAnswers(a', c, rest));
          FirstAnswer(key, Answer(key, ok), RememberedAnswers(b', c, Only(key, rest)));
          assert ([e] + Only(key, rest))[1..] == Only(key, rest);
        } else {
          KeysAreApart(a', b, c, key, rest);
          FirstAnswer(key, Answer(e.key, ok), RememberedAnswers(a', c, rest));
        }
      } else {
        KeysAreApart(a, b, Configured(c, e), key, rest);
        assert ([e] + Only(key, rest))[1..] == Only(key, rest);
      }
    }
  }

  lemma FirstAnswer(key: string, first: Answer, rest: seq<Answer>)
    ensures AnswersFor(key, [first] + rest) == (if first.key == key then [first.ok] else []) + AnswersFor(key, rest)
  {
    assert ([first] + rest)[1..] == rest;
  }

  lemma {:induction false} OnlyKeepsMonotone(from: real, later: real, key: string, run: seq<Event>)
    requires from <= later && Monotone(later, run)
    ensures Monotone(from, Only(key, run))
    decreases |run|
  {
    if run != [] {
      var e, rest := run[0], run[1..];
      if e.Call? && e.key != key {
        OnlyKeepsMonotone(from, e.now, key, rest);
      } else if e.Call? {
        OnlyKeepsMonotone(e.now, e.now, key, rest);
        assert ([e] + Only(key, rest))[1..] == Only(key, rest);
      } else {
        OnlyKeepsMonotone(from, later, key, rest);
        assert ([e] + Only(key, rest))[1..] == Only(key, rest);
      }
    }
  }

  lemma {:induction false} OnlyKeepsWithin(allowed: iset<Config>, c: Config, key: string, run: seq<Event>)
    requires Within(allowed, c, run)
    ensures Within(allowed, c, Only(key, run))
    decreases |run|
  {
    if run != [] {
      OnlyKeepsWithin(allowed, Configured(c, run[0]), key, run[1..]);
      assert ([run[0]] + Only(key, run[1..]))[1..] == Only(key, run[1..]);
    }
  }

  /** Calls on one key never change another key's answers, evictions included. */
  lemma OtherKeysDoNotMatter(p: Params, allowed: iset<Config>, c: Config, start: real, key: string, run: seq<Event>)
    requires p.bucketExpiry > 0.0 && Settles(p, allowed) && Monotone(start, run) && Within(allowed, c, run)
    ensures AnswersFor(key, Answers(p, State(map[], c, start), run))
         == AnswersFor(key, Answers(p, State(map[], c, start), Only(key, run)))
  {
    OnlyKeepsMonotone(start, start, key, run);
    OnlyKeepsWithin(allowed, c, key, run);
    EvictionIsInvisibleWithin(p, allowed, c, start, run);
    EvictionIsInvisibleWithin(p, allowed, c, start, Only(key, run));
    KeysAreApart(map[], map[], c, key, run);
  }

  // ---------------------------------------------------------------- the rate bound

  /** The calls for a key accepted among the answers. */
  function Accepted(key: string, answers: seq<Answer>): nat {
    if answers == [] then 0
    else (if answers[0].key == key && answers[0].ok then 1 else 0) + Accepted(key, answers[1..])
  }

  /** A run of calls only, none after `to`. */
  ghost predicate CallsUntil(to: real, run: seq<Event>) {
    forall e | e in run :: e.Call? && e.now <= to
  }

  /** What a key could spend at once. */
  function Worth(all: map<string, Bucket>, c: Config, key: string, now: real): real {
    if key in all then Refilled(all[key], c, now) else c.burst as real
  }

  lemma WorthGrows(all: map<string, Bucket>, c: Config, key: string, now: real, later: real)
    requires c.rate >= 0.0 && now <= later
    ensures Worth(all, c, key, later) <= Worth(all, c, key, now) + Inflow(c, later - now)
    ensures Worth(all, c, key, now) <= Worth(all, c, key, later)
  {
    hide Inflow;
    InflowIsNonNegative(c, later - now);
    if key in all {
      InflowAdds(c, now - all[key].lastTime, later - now);
      assert now - all[key].lastTime + (later - now) == later - all[key].lastTime;
    }
  }

  /** An accepted call costs one token; a refused one, or another key's, nothing. */
  lemma WorthAfterCall(all: map<string, Bucket>, c: Config, key: string, called: string, now: real)
    requires Worth(all, c, key, now) >= 0.0
    ensures var (all', ok) := Remember(all, c, called, now);
            && Worth(all', c, key, now) == Worth(all, c, key, now) - (if called == key && ok then 1.0 else 0.0)
            && Worth(all', c, key, now) >= 0.0
  {
    assert Inflow(c, now - now) == 0.0;
    hide Inflow;
  }

  lemma {:induction false} AcceptedIsPaidFor(all: map<string, Bucket>, c: Config, key: string, from: real, to: real,
      run: seq<Event>)
    requires c.rate >= 0.0 && from <= to && Monotone(from, run) && CallsUntil(to, run)
    requires Worth(all, c, key, from) >= 0.0
    ensures Accepted(key, RememberedAnswers(all, c, run)) as real <= Worth(all, c, key, from) + Inflow(c, to - from)
    decreases |run|
  {
    hide Inflow;
    InflowIsNonNegative(c, to - from);
    if run != [] {
      var e, rest := run[0], run[1..];
      assert e in run && forall x | x in rest :: x in run;
      WorthGrows(all, c, key, from, e.now);
      WorthAfterCall(all, c, key, e.key, e.now);
      InflowAdds(c, e.now - from, to - e.now);
      assert e.now - from + (to - e.now) == to - from;
      var (all', ok) := Remember(all, c, e.key, e.now);
      AcceptedIsPaidFor(all', c, key, e.now, to, rest);
      assert ([Answer(e.key, ok)] + RememberedAnswers(all', c, rest))[1..] == RememberedAnswers(all', c, rest);
    }
  }

  // ---------------------------------------------------------------- after any run

  function After(p: Params, s: State, run: seq<Event>): State
    decreases |run|
  {
    if run == [] then s
    else if run[0].Call? then After(p, Admit(p, s, run[0].key, run[0].now).0, run[1..])
    else After(p, s.(config := Configured(s.config, run[0])), run[1..])
  }

  function RememberedAfter(all: map<string, Bucket>, c: Config, run: seq<Event>): map<string, Bucket>
    decreases |run|
  {
    if run == [] then all
    else if run[0].Call? then RememberedAfter(Remember(all, c, run[0].key, run[0].now).0, c, run[1..])
    else RememberedAfter(all, Configured(c, run[0]), run[1..])
  }

  function Clock(from: real, run: seq<Event>): real
    decreases |run|
  {
    if run == [] then from else Clock(if run[0].Call? then run[0].now else from, run[1..])
  }

  /** When the key was last called. */
  function LastCall(key: string, before: Option<real>, run: seq<Event>): Option<real>
    decreases |run|
  {
    if run == [] then before
    else LastCall(key, if run[0].Call? && run[0].key == key then Some(run[0].now) else before, run[1..])
  }

  lemma {:induction false} StillAgree(p: Params, allowed: iset<Config>, s: State, all: map<string, Bucket>, from: real,
      run: seq<Event>)
    requires p.bucketExpiry > 0.0 && Settles(p, allowed) && Agree(p, allowed, s.buckets, all, from)
    requires Monotone(from, run) && Within(allowed, s.config, run)
    ensures Agree(p, allowed, After(p, s, run).buckets, RememberedAfter(all, s.config, run), Clock(from, run))
    decreases |run|
  {
    hide Agree;
    hide Settles;
    if run != [] {
      var e := run[0];
      if e.Call? {
        AllowAgrees(p, allowed, s, all, e.key, from, e.now);
        StillAgree(p, allowed, Admit(p, s, e.key, e.now).0, Remember(all, s.config, e.key, e.now).0, e.now, run[1..]);
      } else {
        StillAgree(p, allowed, s.(config := Configured(s.config, e)), all, from, run[1..]);
      }
    }
  }

  lemma {:induction false} RemembersLastCall(all: map<string, Bucket>, c: Config, key: string, before: Option<real>,
      run: seq<Event>)
    requires key in all <==> before.Some?
    requires key in all ==> all[key].lastTime == before.value
    ensures var later := RememberedAfter(all, c, run);
            && (key in later <==> LastCall(key, before, run).Some?)
            && (key in later ==> later[key].lastTime == LastCall(key, before, run).value)
    decreases |run|
  {
    if run != [] {
      var e := run[0];
      if e.Call? {
        RemembersLastCall(Remember(all, c, e.key, e.now).0, c, key, if e.key == key then Some(e.now)
            else before, run[1..]);
      } else {
        RemembersLastCall(all, Configured(c, e), key, before, run[1..]);
      }
    }
  }

  ghost predicate AllCalls(run: seq<Event>) {
    forall e | e in run :: e.Call?
  }

  lemma {:induction false} CallsStayWithin(allowed: iset<Config>, c: Config, run: seq<Event>)
    requires c in allowed && AllCalls(run)
    ensures Within(allowed, c, run)
    decreases |run|
  {
    if run != [] {
      assert run[0] in run && forall e | e in run[1..] :: e in run;
      CallsStayWithin(allowed, c, run[1..]);
    }
  }

  /** The rate bound: after any run, a stretch of calls under one configuration accepts for a key at most
      the burst and what flows in from the stretch's first time to its last. */
  lemma RateBound(p: Params, c: Config, start: real, run: seq<Event>, stretch: seq<Event>, key: string, from: real,
      to: real)
    requires p.bucketExpiry > 0.0 && Monotone(start, run) && AlwaysRefills(p, c, run)
    requires Clock(start, run) <= from <= to && Monotone(from, stretch) && CallsUntil(to, stretch)
    requires var s := After(p, State(map[], c, start), run); Refills(p, s.config)
    ensures var s := After(p, State(map[], c, start), run);
            Accepted(key, Answers(p, s, stretch)) as real <= s.config.burst as real + Inflow(s.config, to - from)
  {
    assert AllCalls(stretch);
    var allowed := Refilling(p);
    var s0 := State(map[], c, start);
    var s, all := After(p, s0, run), RememberedAfter(map[], c, run);
    RefillingSettles(p);
    assert Agree(p, allowed, map[], map[], start) && Within(allowed, c, run) && s.config in allowed;
    hide *;
    StillAgree(p, allowed, s0, map[], start, run);
    RateIsNonNegative(p, allowed, s.config);
    LaterAgrees(p, allowed, s.buckets, all, Clock(start, run), from);
    CallsStayWithin(allowed, s.config, stretch);
    AnswersAgree(p, allowed, s, all, from, stretch);
    WorthIsNonNegative(p, s.config, s.buckets, all, key, from);
    AcceptedIsPaidFor(all, s.config, key, from, to, stretch);
  }

  lemma WorthIsNonNegative(p: Params, c: Config, buckets: map<string, Bucket>, all: map<string, Bucket>, key: string, now: real)
    requires p.bucketExpiry > 0.0 && Refills(p, c) && Agree(p, Refilling(p), buckets, all, now)
    ensures 0.0 <= Worth(all, c, key, now) <= c.burst as real
  {
    RefillingSettles(p);
    RateIsNonNegative(p, Refilling(p), c);
    hide Inflow;
    if key in all {
      InflowIsNonNegative(c, now - all[key].lastTime);
    }
  }

  /** After any run, a key that was never called, or not for 1/rate, is accepted. */
  lemma PatienceIsRewarded(p: Params, c: Config, start: real, run: seq<Event>, key: string, now: real)
    requires p.bucketExpiry > 0.0 && Monotone(start, run) && AlwaysRefills(p, c, run) && Clock(start, run) <= now
    requires var s := After(p, State(map[], c, start), run);
             && Refills(p, s.config) && s.config.burst >= 1 && s.config.rate > 0.0
             && var last := LastCall(key, None, run);
             last.Some? ==> now - last.value >= 1.0 / s.config.rate
    ensures Admit(p, After(p, State(map[], c, start), run), key, now).1
  {
    hide Admit;
    hide Remember;
    hide Configured;
    var allowed := Refilling(p);
    var s0 := State(map[], c, start);
    var s, all := After(p, s0, run), RememberedAfter(map[], c, run);
    RefillingSettles(p);
    StillAgree(p, allowed, s0, map[], start, run);
    RemembersLastCall(map[], c, key, None, run);
    AllowAgrees(p, allowed, s, all, key, Clock(start, run), now);
    SpendAfterWait(all, s.config, key, now);
  }

  lemma SpendAfterWait(all: map<string, Bucket>, c: Config, key: string, now: real)
    requires c.burst >= 1 && c.rate > 0.0
    requires key in all ==> all[key].tokens >= 0.0 && now - all[key].lastTime >= 1.0 / c.rate
    ensures Remember(all, c, key, now).1
  {
    assert Inflow(c, now - now) == 0.0;
    hide Inflow;
    if key in all {
      WaitPays(c, now - all[key].lastTime);
    }
  }

  lemma WaitPays(c: Config, elapsed: real)
    requires c.rate > 0.0 && elapsed >= 1.0 / c.rate
    ensures Inflow(c, elapsed) >= 1.0
  {
    assert (1.0 / c.rate) * c.rate == 1.0;
    PositiveProduct(elapsed - 1.0 / c.rate, c.rate);
    assert (elapsed - 1.0 / c.rate) * c.rate == elapsed * c.rate - (1.0 / c.rate) * c.rate;
  }
}
