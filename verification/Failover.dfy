/** Retries and failover of a forwarded request (internal/proxy/proxy.go). One attempt is an oracle: what came back may
    depend on which attempt it was and on the address it went to. */
module Failover {
  import opened Routes

  const ERR_BACKEND_DOWN := 10007
  const ERR_BACKEND_TIMEOUT := 10008

  /** What happened between the proxy and a backend. */
  datatype Exchange =
    | NotBuilt
    | RequestFailed
    | BodyFailed(status: int)
    | Replied(status: int)

  /** What one attempt gives: a response, an error of the gateway, or another error. */
  datatype Outcome =
    | Success(status: int)
    | GatewayError(code: int)
    | OtherError

  predicate Retryable(outcome: Outcome) {
    || outcome.OtherError?
    || (outcome.GatewayError? && (outcome.code == ERR_BACKEND_DOWN || outcome.code == ERR_BACKEND_TIMEOUT))
  }

  datatype RetryPolicy = RetryPolicy(maxRetries: int, retryableStatus: seq<int>)

  function RetryableStatus(policy: RetryPolicy, route: Route?): seq<int> {
    if route != null && route.retry.maxRetries > 0 && route.retry.retryableStatus != [] then route.retry.retryableStatus
    else policy.retryableStatus
  }

  /** doForward, with the network replaced by what it brought. */
  function Attempt(exchange: Exchange, statuses: seq<int>): Outcome {
    match exchange
    case NotBuilt => OtherError
    case RequestFailed => GatewayError(ERR_BACKEND_DOWN)
    case BodyFailed(_) => GatewayError(ERR_BACKEND_TIMEOUT)
    case Replied(status) =>
      if status >= 500 && status in statuses then GatewayError(ERR_BACKEND_DOWN) else Success(status)
  }

  /** What an attempt gives, under the settings in force: a failed exchange an error that is retried, an answer from 500 up
      an error too if its status is listed, by the route if that has retries of its own and lists any, and else by the
      proxy. Every other answer is passed on. */
  lemma AttemptsAreRetried(exchange: Exchange, policy: RetryPolicy, route: Route?)
    ensures var outcome := Attempt(exchange, RetryableStatus(policy, route));
            && (outcome.Success? <==> !Retryable(outcome))
            && (exchange.NotBuilt? ==> outcome.OtherError?)
            && (exchange.RequestFailed? ==> outcome == GatewayError(10007))
            && (exchange.BodyFailed? ==> outcome == GatewayError(10008))
            && (exchange.Replied? ==>
                  var own := route != null && route.retry.maxRetries > 0 && |route.retry.retryableStatus| > 0;
                  var listed := exchange.status in (if own then route.retry.retryableStatus else policy.retryableStatus);
                  outcome == if exchange.status >= 500 && listed then GatewayError(10007) else Success(exchange.status))
  {
  }

  // ---------------------------------------------------------------- which addresses are tried

  /** The addresses of the healthy backends, in the order of the list. */
  function Healthy(backends: seq<Backend>): seq<string>
    reads backends
  {
    if backends == [] then []
    else (if backends[0].healthy then [backends[0].address] else []) + Healthy(backends[1..])
  }

  /** The same under given health, which may be another at each attempt. */
  function HealthyAt(backends: seq<Backend>, health: (nat, Backend) -> bool, n: nat): seq<string> {
    if backends == [] then []
    else (if health(n, backends[0]) then [backends[0].address] else []) + HealthyAt(backends[1..], health, n)
  }

  /** Which addresses are healthy when the n-th attempt is about to be made, in the order of the list. */
  type Ups = nat -> seq<string>

  function UpsOf(backends: seq<Backend>, health: (nat, Backend) -> bool): Ups {
    (n: nat) => HealthyAt(backends, health, n)
  }

  /** Health does not change. */
  ghost predicate Steady(ups: Ups) {
    forall n :: ups(n) == ups(0)
  }

  lemma {:induction false} HealthyNow(backends: seq<Backend>, health: (nat, Backend) -> bool, n: nat)
    requires forall b | b in backends :: b.healthy == health(n, b)
    ensures Healthy(backends) == UpsOf(backends, health)(n)
  {
    if backends != [] {
      assert backends[0] in backends && forall b | b in backends[1..] :: b in backends;
      HealthyNow(backends[1..], health, n);
    }
  }

  /** The first of `addresses` that was not tried; `current` when all were. */
  function FirstUntried(addresses: seq<string>, tried: set<string>, current: string): string {
    if addresses == [] then current
    else if addresses[0] !in tried then addresses[0]
    else FirstUntried(addresses[1..], tried, current)
  }

  lemma {:induction false} UntriedIs(addresses: seq<string>, tried: set<string>, current: string)
    ensures var a := FirstUntried(addresses, tried, current);
            if Elements(addresses) <= tried then a == current else a in addresses && a !in tried
  {
    if addresses != [] {
      UntriedIs(addresses[1..], tried, current);
      assert Elements(addresses) == {addresses[0]} + Elements(addresses[1..]);
    }
  }

  function Elements(s: seq<string>): set<string> {
    set a | a in s
  }

  /** The addresses of the first `n` attempts when all of them fail and are retried. */
  function Schedule(first: string, ups: Ups, n: nat): (s: seq<string>)
    ensures |s| == n
  {
    if n == 0 then []
    else if n == 1 then [first]
    else
      var before := Schedule(first, ups, n - 1);
      before + [FirstUntried(ups(n - 1), Elements(before), before[n - 2])]
  }

  /** `seen` followed by the addresses that are not in it, each once, in order. */
  function Appending(seen: seq<string>, addresses: seq<string>): seq<string>
    decreases |addresses|
  {
    if addresses == [] then seen
    else if addresses[0] in seen then Appending(seen, addresses[1..])
    else Appending(seen + [addresses[0]], addresses[1..])
  }

  /** The first choice and then every other healthy address once. */
  function Candidates(first: string, addresses: seq<string>): seq<string> {
    Appending([first], addresses)
  }

  ghost predicate Distinct(s: seq<string>) {
    forall i, j | 0 <= i < j < |s| :: s[i] != s[j]
  }

  lemma {:induction false} AppendingIsDistinct(seen: seq<string>, addresses: seq<string>)
    requires Distinct(seen)
    ensures Distinct(Appending(seen, addresses)) && seen <= Appending(seen, addresses)
    ensures forall a :: a in Appending(seen, addresses) <==> a in seen || a in addresses
    decreases |addresses|
  {
    if addresses != [] {
      AppendingIsDistinct(if addresses[0] in seen then seen else seen + [addresses[0]], addresses[1..]);
    }
  }

  /** What comes behind the first k candidates is the first address that is not among them. */
  lemma {:induction false} NextCandidate(seen: seq<string>, addresses: seq<string>, k: nat, current: string)
    requires Distinct(seen) && |seen| <= k <= |Appending(seen, addresses)|
    ensures var all := Appending(seen, addresses);
            FirstUntried(addresses, Elements(all[..k]), current) == if k < |all| then all[k] else current
    decreases |addresses|
  {
    var all := Appending(seen, addresses);
    AppendingIsDistinct(seen, addresses);
    if addresses != [] {
      var a := addresses[0];
      var grown := if a in seen then seen else seen + [a];
      AppendingIsDistinct(grown, addresses[1..]);
      if a !in seen && k == |seen| {
        assert all[|seen|] == a;
        assert all[..k] == seen;
      } else {
        assert a in grown && grown <= all[..k];
        NextCandidate(grown, addresses[1..], k, current);
      }
    }
  }

  /** While health does not change, attempt i goes to candidate i, and to the last candidate once they have all been
      tried. */
  lemma {:induction false} ScheduleFollowsCandidates(first: string, ups: Ups, n: nat)
    requires Steady(ups)
    ensures var all := Candidates(first, ups(0));
            |all| > 0 && forall i | 0 <= i < n :: Schedule(first, ups, n)[i] == if i < |all| then all[i] else all[|all| - 1]
  {
    var all := Candidates(first, ups(0));
    AppendingIsDistinct([first], ups(0));
    if n > 1 {
      ScheduleFollowsCandidates(first, ups, n - 1);
      var before := Schedule(first, ups, n - 1);
      var k := if n - 1 < |all| then n - 1 else |all|;
      NextCandidate([first], ups(0), k, before[n - 2]);
      hide Elements;
      hide Appending;
      SameElements(before, all, n - 1);
      assert ups(n - 1) == ups(0);
    }
  }

  lemma {:induction false} DistinctSize(s: seq<string>)
    requires Distinct(s)
    ensures |Elements(s)| == |s|
  {
    if s != [] {
      var rest := s[..|s| - 1];
      DistinctSize(rest);
      assert Elements(s) == Elements(rest) + {s[|s| - 1]};
    }
  }

  lemma CandidatesAreAll(first: string, addresses: seq<string>)
    ensures var all := Candidates(first, addresses);
            && Distinct(all) && |all| > 0 && all[0] == first && |all| == |Elements(all)|
            && Elements(all) == {first} + Elements(addresses)
  {
    AppendingIsDistinct([first], addresses);
    DistinctSize(Candidates(first, addresses));
  }

  /** While health does not change, n failing attempts reach as many distinct addresses as there can be: n of them, or all
      healthy ones and the first choice. */
  lemma CoversDistinctBackends(first: string, ups: Ups, n: nat)
    requires Steady(ups) && n > 0
    ensures var reached := Elements(Schedule(first, ups, n));
            var all := {first} + Elements(ups(0));
            && Schedule(first, ups, n)[0] == first && reached <= all
            && |reached| == (if n < |all| then n else |all|)
  {
    var s, all := Schedule(first, ups, n), Candidates(first, ups(0));
    ScheduleFollowsCandidates(first, ups, n);
    CandidatesAreAll(first, ups(0));
    hide Schedule;
    hide Candidates;
    DistinctSize(all[..if n < |all| then n else |all|]);
    SameElements(s, all, n);
  }

  lemma {:induction false} SchedulePrefix(first: string, ups: Ups, n: nat, m: nat)
    requires m <= n
    ensures Schedule(first, ups, n)[..m] == Schedule(first, ups, m)
  {
    if m < n {
      SchedulePrefix(first, ups, n - 1, m);
      assert Schedule(first, ups, n)[..m] == Schedule(first, ups, n - 1)[..m];
    }
  }

  /** However health changes, an address is tried a second time only if every address that is healthy then was tried. */
  lemma RepeatsOnlyWhenUpWereTried(first: string, ups: Ups, n: nat, i: nat, j: nat)
    requires i < j < n && Schedule(first, ups, n)[i] == Schedule(first, ups, n)[j]
    ensures Elements(ups(j)) <= Elements(Schedule(first, ups, n)[..j])
  {
    var s, before := Schedule(first, ups, n), Schedule(first, ups, j);
    SchedulePrefix(first, ups, n, j);
    SchedulePrefix(first, ups, n, j + 1);
    assert s[j] == s[..j + 1][j] == Schedule(first, ups, j + 1)[j];
    UntriedIs(ups(j), Elements(before), before[j - 1]);
    assert s[i] == before[i] && before[i] in Elements(before);
  }

  /** While health does not change, no address is tried a second time before all healthy ones were tried. */
  lemma RepeatsOnlyWhenAllWereTried(first: string, ups: Ups, n: nat, i: nat, j: nat)
    requires Steady(ups) && i < j < n && Schedule(first, ups, n)[i] == Schedule(first, ups, n)[j]
    ensures Elements(Schedule(first, ups, n)[..j]) == {first} + Elements(ups(0))
  {
    var s, all := Schedule(first, ups, n), Candidates(first, ups(0));
    ScheduleFollowsCandidates(first, ups, n);
    CandidatesAreAll(first, ups(0));
    hide Schedule;
    hide Candidates;
    assert j >= |all|;
    SameElements(s, all, j);
    assert all[..|all|] == all;
  }

  lemma SameElements(s: seq<string>, all: seq<string>, n: nat)
    requires 0 < n <= |s| && |all| > 0
    requires forall i | 0 <= i < n :: s[i] == if i < |all| then all[i] else all[|all| - 1]
    ensures Elements(s[..n]) == Elements(all[..if n < |all| then n else |all|])
    ensures n == |s| ==> s[..n] == s
  {
    var k := if n < |all| then n else |all|;
    assert forall i | 0 <= i < k :: s[..n][i] == all[..k][i];
    assert forall i | 0 <= i < n :: s[..n][i] == all[..k][if i < k then i else k - 1];
  }

  lemma ScheduleGrows(first: string, ups: Ups, log: seq<string>, current: string)
    requires log == Schedule(first, ups, |log|)
    requires if log == [] then current == first
             else current == FirstUntried(ups(|log|), Elements(log), log[|log| - 1])
    ensures log + [current] == Schedule(first, ups, |log| + 1)
    ensures Elements(log + [current]) == Elements(log) + {current}
  {
    hide FirstUntried;
  }

  // ---------------------------------------------------------------- the retry loop

  datatype Forwarded =
    | Done(status: int)
    | Stopped(code: int)                                    // an error that is not retried
    | Exhausted(address: string, attempts: int, last: Outcome)
    | NothingTried

  /** An error of the gateway with another code than these two is final. */
  predicate IsFinal(outcome: Outcome) {
    outcome.Success? || (outcome.GatewayError? && outcome.code != 10007 && outcome.code != 10008)
  }

  /** The loop, attempt by attempt: none but the last is final; if the last is, it is the result, and if not, that was the
      last attempt allowed. */
  ghost predicate StopsRightly(r: Forwarded, maxRetries: int, log: seq<string>, attempt: (nat, string) -> Outcome) {
    && (forall i | 0 <= i < |log| - 1 :: !IsFinal(attempt(i, log[i])))
    && (log == [] ==> maxRetries < 0 && r.NothingTried?)
    && (log != [] ==>
          var last := attempt(|log| - 1, log[|log| - 1]);
          if IsFinal(last) then
            |log| <= maxRetries + 1 && r == if last.Success? then Done(last.status) else Stopped(last.code)
          else
            |log| == maxRetries + 1 && r == Exhausted(log[|log| - 1], |log|, last))
  }

  lemma EmptySchedule(first: string, ups: Ups)
    ensures Schedule(first, ups, 0) == []
  {
  }

  lemma LoopEnds(r: Forwarded, maxRetries: int, log: seq<string>, attempt: (nat, string) -> Outcome)
    requires log == [] ==> r.NothingTried? && maxRetries < 0
    requires log != [] ==> |log| <= maxRetries + 1 && forall i | 0 <= i < |log| - 1 :: Retryable(attempt(i, log[i]))
    requires log != [] ==>
               var last := attempt(|log| - 1, log[|log| - 1]);
               || (last.Success? && r == Done(last.status))
               || (last.GatewayError? && !Retryable(last) && r == Stopped(last.code))
               || (Retryable(last) && |log| == maxRetries + 1 && r == Exhausted(log[|log| - 1], |log|, last))
    ensures StopsRightly(r, maxRetries, log, attempt)
  {
  }

  /** When every attempt fails and may be retried, all of them are made; while health does not change, over as many
      distinct addresses as there are. */
  lemma FailingIsExhaustive(r: Forwarded, maxRetries: int, first: string, ups: Ups, log: seq<string>,
                            attempt: (nat, string) -> Outcome)
    requires StopsRightly(r, maxRetries, log, attempt) && log == Schedule(first, ups, |log|)
    requires maxRetries >= 0 && forall n: nat, address: string :: Retryable(attempt(n, address))
    ensures |log| == maxRetries + 1 && r.Exhausted? && r.attempts == |log| && r.address == log[|log| - 1]
    ensures Steady(ups) ==>
              var all := {first} + Elements(ups(0));
              |Elements(log)| == if maxRetries + 1 < |all| then maxRetries + 1 else |all|
  {
    assert log != [] && Retryable(attempt(|log| - 1, log[|log| - 1]));
    hide Schedule;
    hide Elements;
    if Steady(ups) {
      CoversDistinctBackends(first, ups, |log|);
    }
  }

  /** doForward never gives an error that stops the loop: it ends with an answer that is not to be retried under the
      settings in force, or after all attempts. */
  lemma OnlyAnswersStop(r: Forwarded, maxRetries: int, policy: RetryPolicy, route: Route?, log: seq<string>,
                        exchange: (nat, string) -> Exchange)
    requires log != []
    requires StopsRightly(r, maxRetries, log,
                          (n: nat, address: string) => Attempt(exchange(n, address), RetryableStatus(policy, route)))
    ensures var own := route != null && route.retry.maxRetries > 0 && |route.retry.retryableStatus| > 0;
            var statuses := if own then route.retry.retryableStatus else policy.retryableStatus;
            if r.Done? then
              exchange(|log| - 1, log[|log| - 1]) == Replied(r.status) && !(r.status >= 500 && r.status in statuses)
            else r.Exhausted? && |log| == maxRetries + 1
  {
    AttemptsAreRetried(exchange(|log| - 1, log[|log| - 1]), policy, route);
  }

  class Proxy {
    const retryPolicy: RetryPolicy

    constructor (retryPolicy: RetryPolicy)
      ensures this.retryPolicy == retryPolicy
    {
      this.retryPolicy := retryPolicy;
    }

    /** The first healthy backend of the route that was not tried. */
    method NextBackend(route: Route, tried: set<string>, ghost current: string) returns (next: Backend?)
      ensures FirstUntried(Healthy(route.backends), tried, current) == if next == null then current else next.address
      ensures if next == null then forall b | b in route.backends && b.healthy :: b.address in tried
              else next in route.backends && next.healthy && next.address !in tried
    {
      var i := 0;
      while i < |route.backends|
        invariant i <= |route.backends|
        invariant FirstUntried(Healthy(route.backends), tried, current) == FirstUntried(Healthy(route.backends[i..]),
            tried, current)
        invariant forall j | 0 <= j < i && route.backends[j].healthy :: route.backends[j].address in tried
      {
        var b := route.backends[i];
        assert route.backends[i..][1..] == route.backends[i + 1..];
        ghost var others := Healthy(route.backends[i + 1..]);
        assert ([b.address] + others)[1..] == others && [] + others == others;
        if b.address !in tried && b.healthy {
          return b;
        }
        i := i + 1;
      }
      return null;
    }

    /** The health of the backends as it is when the n-th attempt is about to be made. */
    method Observe(backends: seq<Backend>, health: (nat, Backend) -> bool, n: nat)
      modifies (set b | b in backends)`healthy
      ensures Healthy(backends) == UpsOf(backends, health)(n)
    {
      forall b | b in (set b | b in backends) {
        b.healthy := health(n, b);
      }
      HealthyNow(backends, health, n);
    }

    /** The backend of the next attempt: the first healthy one not tried yet, or the same again. */
    method PickBackend(route: Route?, backend: Backend, tried: set<string>, health: (nat, Backend) -> bool, n: nat)
      returns (next: Backend, triedNow: set<string>)
      modifies (if route == null then {} else set b | b in route.backends)`healthy
      ensures var up := UpsOf(if route == null then [] else route.backends, health)(n);
              next.address == FirstUntried(up, tried, backend.address)
      ensures backend.address in tried ==> triedNow == tried + {next.address}
    {
      next, triedNow := backend, tried;
      if route != null {
        Observe(route.backends, health, n);
        var other := NextBackend(route, tried, backend.address);
        if other != null {
          next := other;
          triedNow := tried + {other.address};
        }
      }
    }

    /** Forwards a request, first to the chosen backend and then to others. `log` is the addresses in the order of
        the attempts; `health` is what others, while this waits to retry, make of the backends. */
    method Forward(first: Backend, route: Route?, attempt: (nat, string) -> Outcome, health: (nat, Backend) -> bool)
      returns (r: Forwarded, log: seq<string>)
      modifies (if route == null then {} else set b | b in route.backends)`healthy
      ensures log == Schedule(first.address, UpsOf(if route == null then [] else route.backends, health), |log|)
      ensures var own := route != null && route.retry.maxRetries > 0;
              StopsRightly(r, if own then route.retry.maxRetries else retryPolicy.maxRetries, log, attempt)
    {
      hide Healthy;
      hide UpsOf;
      hide FirstUntried;
      hide Schedule;
      hide StopsRightly;
      var maxRetries := retryPolicy.maxRetries;
      if route != null && route.retry.maxRetries > 0 {
        maxRetries := route.retry.maxRetries;
      }
      ghost var ups := UpsOf(if route == null then [] else route.backends, health);
      var backend: Backend := first;
      var tried := {first.address};
      var last := OtherError;
      var n := 0;
      log := [];
      assert log == Schedule(first.address, ups, n) by { EmptySchedule(first.address, ups); }
      while n <= maxRetries
        invariant n == |log| && (n <= maxRetries + 1 || n == 0)
        invariant log == Schedule(first.address, ups, n)
        invariant forall i | 0 <= i < n :: Retryable(attempt(i, log[i]))
        invariant n == 0 ==> backend == first && tried == {first.address}
        invariant n > 0 ==> backend.address == log[n - 1] && tried == Elements(log) && last == attempt(n - 1, log[n - 1])
        decreases maxRetries - n
      {
        if n > 0 {
          backend, tried := PickBackend(route, backend, tried, health, n);
        }
        ScheduleGrows(first.address, ups, log, backend.address);
        log := log + [backend.address];
        last := attempt(n, backend.address);
        n := n + 1;
        if last.Success? {
          r := Done(last.status);
          LoopEnds(r, maxRetries, log, attempt);
          return;
        }
        if last.GatewayError? && !Retryable(last) {
          r := Stopped(last.code);
          LoopEnds(r, maxRetries, log, attempt);
          return;
        }
      }
      r := if n > 0 then Exhausted(backend.address, maxRetries + 1, last) else NothingTried;
      LoopEnds(r, maxRetries, log, attempt);
    }
  }
}
