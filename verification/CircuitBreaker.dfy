/** The circuit breaker of internal/middleware/circuitbreaker.go, and the requests it lets through,
    which overlap in time and may report long after the state they started in. */
module CircuitBreaking {
  import opened Wrappers

  datatype Mode = Closed | Open | HalfOpen

  datatype Settings = Settings(failureThreshold: int, successThreshold: int, timeout: real)

  /** No last failure stands for the zero time, which lies further back than any timeout. */
  datatype Breaker = Breaker(
    mode: Mode, failureCount: int, successCount: int, halfOpenActive: int, lastFailure: Option<real>)

  predicate TimedOut(s: Settings, lastFailure: Option<real>, now: real) {
    lastFailure.Some? ==> now - lastFailure.value > s.timeout
  }

  /** A request asks to pass. */
  function Asked(s: Settings, b: Breaker, now: real): (Breaker, bool) {
    match b.mode
    case Closed => (b, true)
    case Open =>
      if TimedOut(s, b.lastFailure, now)
      then (b.(mode := HalfOpen, successCount := 0, halfOpenActive := 1), true)
      else (b, false)
    case HalfOpen =>
      if b.halfOpenActive < s.successThreshold
      then (b.(halfOpenActive := b.halfOpenActive + 1), true)
      else (b, false)
  }

  function Failed(s: Settings, b: Breaker, now: real): Breaker {
    if b.mode.HalfOpen? then
      b.(mode := Open, failureCount := 0, halfOpenActive := 0, lastFailure := Some(now))
    else
      b.(mode := if b.failureCount + 1 >= s.failureThreshold then Open else b.mode,
         failureCount := b.failureCount + 1, lastFailure := Some(now))
  }

  function Succeeded(s: Settings, b: Breaker): Breaker {
    if !b.mode.HalfOpen? then
      b.(failureCount := 0)
    else if b.successCount + 1 >= s.successThreshold then
      b.(mode := Closed, successCount := 0, halfOpenActive := 0, failureCount := 0)
    else
      b.(successCount := b.successCount + 1, halfOpenActive := if b.halfOpenActive < 1 then 0 else b.halfOpenActive - 1)
  }

  const FRESH := Breaker(Closed, 0, 0, 0, None)

  class CircuitBreaker {
    var state: Mode
    var failureCount: int
    var successCount: int
    var failureThreshold: int
    var successThreshold: int
    var timeout: real
    var lastFailure: Option<real>
    var halfOpenActive: int

    ghost function Abs(): Breaker
      reads this
    {
      Breaker(state, failureCount, successCount, halfOpenActive, lastFailure)
    }

    function Set(): Settings
      reads this
    {
      Settings(failureThreshold, successThreshold, timeout)
    }

    constructor (failureThreshold: int, successThreshold: int, timeout: real)
      ensures Abs() == FRESH && Set() == Settings(failureThreshold, successThreshold, timeout)
    {
      this.failureThreshold, this.successThreshold, this.timeout := failureThreshold, successThreshold, timeout;
      state, failureCount, successCount, halfOpenActive, lastFailure := Closed, 0, 0, 0, None;
    }

    method Allow(now: real) returns (ok: bool)
      modifies this
      ensures Set() == old(Set()) && (Abs(), ok) == Asked(Set(), old(Abs()), now)
      ensures ok <==>
                match old(state)
                case Closed => true
                case Open => old(lastFailure).Some? ==> now - old(lastFailure).value > timeout
                case HalfOpen => old(halfOpenActive) < successThreshold
    {
      match state
      case Closed =>
        return true;
      case Open =>
        if TimedOut(Set(), lastFailure, now) {
          state := HalfOpen;
          successCount := 0;
          halfOpenActive := 1;
          return true;
        }
        return false;
      case HalfOpen =>
        if halfOpenActive < successThreshold {
          halfOpenActive := halfOpenActive + 1;
          return true;
        }
        return false;
    }

    method RecordFailure(now: real)
      modifies this
      ensures Set() == old(Set()) && Abs() == Failed(Set(), old(Abs()), now)
    {
      failureCount := failureCount + 1;
      lastFailure := Some(now);
      if state == HalfOpen {
        state := Open;
        failureCount := 0;
        halfOpenActive := 0;
        return;
      }
      if failureCount >= failureThreshold {
        state := Open;
      }
    }

    method RecordSuccess()
      modifies this
      ensures Set() == old(Set()) && Abs() == Succeeded(Set(), old(Abs()))
    {
      if state == HalfOpen {
        successCount := successCount + 1;
        halfOpenActive := halfOpenActive - 1;
        if halfOpenActive < 0 {
          halfOpenActive := 0;
        }
        if successCount >= successThreshold {
          state := Closed;
          successCount := 0;
          halfOpenActive := 0;
          failureCount := 0;
        }
      } else {
        failureCount := 0;
      }
    }

    /** What the middleware records of a request that it let through. */
    method Report(outcome: Outcome, now: real)
      modifies this
      ensures Set() == old(Set()) && Abs() == Stepped(Set(), old(Abs()), Finish(outcome, now))
    {
      if outcome.Error? {
        RecordFailure(now);
      } else if outcome.code >= 500 {
        RecordFailure(now);
      } else {
        RecordSuccess();
      }
    }

    method Reset()
      modifies this
      ensures Set() == old(Set()) && Abs() == FRESH
    {
      state := Closed;
      failureCount := 0;
      successCount := 0;
      halfOpenActive := 0;
      lastFailure := None;
    }
  }

  // ---------------------------------------------------------------- requests that overlap

  /** How a forwarded request ended. */
  datatype Outcome = Error | Status(code: int)

  predicate IsFailure(o: Outcome) {
    o.Error? || o.code >= 500
  }

  /** A request arrives; one that was let through earlier reports; an operator resets the breaker. */
  datatype Event = Start(now: real) | Finish(outcome: Outcome, now: real) | Reset

  function Stepped(s: Settings, b: Breaker, e: Event): Breaker {
    match e
    case Start(now) => Asked(s, b, now).0
    case Finish(o, now) => if IsFailure(o) then Failed(s, b, now) else Succeeded(s, b)
    case Reset => FRESH
  }

  predicate Admits(s: Settings, b: Breaker, e: Event) {
    e.Start? && Asked(s, b, e.now).1
  }

  /** What a bystander sees, who knows the mode and the requests but none of the breaker's counters. */
  datatype Watch = Watch(
    outstanding: nat,            // let through and not yet reported
    failuresInRow: nat,          // recorded in Closed since its last success or its beginning
    successes: nat,              // recorded in this half-open period
    admitted: nat,               // let through by this half-open period
    lastFailed: Option<real>)    // when the latest failure was recorded, since the last reset

  function Watched(s: Settings, b: Breaker, w: Watch, e: Event): Watch
    requires e.Finish? ==> w.outstanding > 0
  {
    var after := Stepped(s, b, e).mode;
    Watch(
      if Admits(s, b, e) then w.outstanding + 1 else if e.Finish? then w.outstanding - 1 else w.outstanding,
      if after.Closed? && (!b.mode.Closed? || e.Reset? || (e.Finish? && !IsFailure(e.outcome))) then 0
      else if b.mode.Closed? && e.Finish? && IsFailure(e.outcome) then w.failuresInRow + 1
      else w.failuresInRow,
      if after.HalfOpen? && !b.mode.HalfOpen? then 0
      else if b.mode.HalfOpen? && e.Finish? && !IsFailure(e.outcome) then w.successes + 1
      else w.successes,
      if after.HalfOpen? && !b.mode.HalfOpen? then 1
      else if b.mode.HalfOpen? && Admits(s, b, e) then w.admitted + 1
      else w.admitted,
      if e.Finish? && IsFailure(e.outcome) then Some(e.now) else if e.Reset? then None else w.lastFailed)
  }

  datatype World = World(b: Breaker, w: Watch)

  /** Only requests that were let through report. */
  predicate Legal(x: World, e: Event) {
    e.Finish? ==> x.w.outstanding > 0
  }

  function Next(s: Settings, x: World, e: Event): World
    requires Legal(x, e)
  {
    World(Stepped(s, x.b, e), Watched(s, x.b, x.w, e))
  }

  ghost predicate IsRun(s: Settings, worlds: seq<World>, events: seq<Event>) {
    && |worlds| == |events| + 1
    && (forall i | 0 <= i < |events| :: Legal(worlds[i], events[i]) && worlds[i + 1] == Next(s, worlds[i], events[i]))
  }

  const START := World(FRESH, Watch(0, 0, 0, 0, None))

  function AtLeastOne(n: int): int {
    if n < 1 then 1 else n
  }

  /** The breaker's counters mean what the bystander sees. */
  ghost predicate Inv(s: Settings, x: World) {
    match x.b.mode
    case Closed =>
      && x.b.failureCount == x.w.failuresInRow < AtLeastOne(s.failureThreshold)
      && x.b.halfOpenActive == 0 && x.b.lastFailure == x.w.lastFailed
    case Open =>
      x.b.halfOpenActive == 0 && x.b.lastFailure == x.w.lastFailed && x.w.lastFailed.Some?
    case HalfOpen =>
      && x.b.successCount == x.w.successes < AtLeastOne(s.successThreshold)
      && 0 <= x.b.halfOpenActive <= AtLeastOne(s.successThreshold)
      && x.b.halfOpenActive <= x.w.outstanding
      && 1 <= x.w.admitted <= x.b.halfOpenActive + x.w.successes
      && x.b.lastFailure == x.w.lastFailed
  }

  lemma StepKeepsInv(s: Settings, x: World, e: Event)
    requires Inv(s, x) && Legal(x, e)
    ensures Inv(s, Next(s, x, e))
  {
  }

  /** The invariant holds throughout every run from a fresh breaker. */
  lemma {:induction false} RunKeepsInv(s: Settings, worlds: seq<World>, events: seq<Event>, n: nat)
    requires IsRun(s, worlds, events) && worlds[0] == START && n <= |events|
    ensures Inv(s, worlds[n])
  {
    if n > 0 {
      RunKeepsInv(s, worlds, events, n - 1);
      StepKeepsInv(s, worlds[n - 1], events[n - 1]);
    }
  }

  // ---------------------------------------------------------------- half-open periods

  /** One half-open period lets at most 2T - 1 requests through, and counts no more as active than are outstanding. */
  lemma HalfOpenIsBounded(s: Settings, worlds: seq<World>, events: seq<Event>, n: nat)
    requires IsRun(s, worlds, events) && worlds[0] == START && n <= |events| && worlds[n].b.mode.HalfOpen?
    ensures worlds[n].w.admitted <= 2 * AtLeastOne(s.successThreshold) - 1
    ensures 0 <= worlds[n].b.halfOpenActive <= worlds[n].w.outstanding
  {
    RunKeepsInv(s, worlds, events, n);
  }

  function Finishes(events: seq<Event>): nat {
    if events == [] then 0 else (if events[0].Finish? then 1 else 0) + Finishes(events[1..])
  }

  ghost predicate NoReset(events: seq<Event>) {
    forall e | e in events :: !e.Reset?
  }

  /** The first n + 1 worlds of a run are half-open. */
  ghost predicate StaysHalfOpen(worlds: seq<World>, n: nat) {
    n < |worlds| && forall i | 0 <= i <= n :: worlds[i].b.mode.HalfOpen?
  }

  /** While half-open, every report was a success and was counted. */
  lemma {:induction false} HalfOpenCounts(s: Settings, worlds: seq<World>, events: seq<Event>)
    requires IsRun(s, worlds, events) && NoReset(events) && StaysHalfOpen(worlds, |events|)
    ensures worlds[|events|].b.successCount == worlds[0].b.successCount + Finishes(events)
    decreases |events|
  {
    if events != [] {
      assert events[0] in events && forall e | e in events[1..] :: e in events;
      HalfOpenCounts(s, worlds[1..], events[1..]);
      assert worlds[1] == Next(s, worlds[0], events[0]);
    }
  }

  /** No lockout: once T requests have reported, whatever else arrives, the half-open period is over; it
      ended in Closed at a success, or in Open at a failure. */
  lemma {:induction false} HalfOpenEnds(s: Settings, worlds: seq<World>, events: seq<Event>) returns (n: nat)
    requires IsRun(s, worlds, events) && NoReset(events)
    requires Inv(s, worlds[0]) && worlds[0].b.mode.HalfOpen? && Finishes(events) >= AtLeastOne(s.successThreshold)
    ensures n < |events| && StaysHalfOpen(worlds, n) && events[n].Finish?
    ensures worlds[n + 1].b.mode == if events[n].outcome.Error? || events[n].outcome.code >= 500 then Open else Closed
  {
    n := 0;
    while n < |events| && worlds[n + 1].b.mode.HalfOpen?
      invariant n <= |events| && StaysHalfOpen(worlds, n)
      invariant Inv(s, worlds[n])
    {
      StepKeepsInv(s, worlds[n], events[n]);
      n := n + 1;
    }
    if n == |events| {
      HalfOpenCounts(s, worlds, events);
    } else {
      assert events[n] in events;
    }
  }

  /** Half-open refuses only when at least T requests are outstanding, so their reports will end it. */
  lemma RefusalMeansOutstanding(s: Settings, worlds: seq<World>, events: seq<Event>, n: nat)
    requires IsRun(s, worlds, events) && worlds[0] == START && n < |events| && s.successThreshold >= 1
    requires worlds[n].b.mode.HalfOpen? && events[n].Start? && !Admits(s, worlds[n].b, events[n])
    ensures worlds[n].w.outstanding >= s.successThreshold
  {
    RunKeepsInv(s, worlds, events, n);
  }

  // ---------------------------------------------------------------- history

  /** The breaker changes mode exactly when the bystander would expect it to; an error, or an answer from 500 up, is a
      failure. */
  lemma ModeFollowsHistory(s: Settings, worlds: seq<World>, events: seq<Event>, n: nat)
    requires IsRun(s, worlds, events) && worlds[0] == START && n < |events|
    ensures var (x, e, after) := (worlds[n], events[n], worlds[n + 1].b.mode);
            var failed := e.Finish? && (e.outcome.Error? || e.outcome.code >= 500);
            match x.b.mode
            case Closed =>
              after == if failed && x.w.failuresInRow + 1 == AtLeastOne(s.failureThreshold) then Open else Closed
            case Open =>
              && x.w.lastFailed.Some?
              && after == (if e.Reset? then Closed
                           else if e.Start? && e.now - x.w.lastFailed.value > s.timeout then HalfOpen
                           else Open)
            case HalfOpen =>
              after == if e.Reset? then Closed
                       else if failed then Open
                       else if e.Finish? && x.w.successes + 1 == AtLeastOne(s.successThreshold) then Closed
                       else HalfOpen
  {
    RunKeepsInv(s, worlds, events, n);
  }

  /** Which requests are let through: in Closed every one, in Open one that comes more than the timeout after the latest
      failure, and in half-open one that finds fewer than T active, as it does while fewer than T are outstanding. */
  lemma AnswersFollowHistory(s: Settings, worlds: seq<World>, events: seq<Event>, n: nat)
    requires IsRun(s, worlds, events) && worlds[0] == START && n < |events| && events[n].Start?
    ensures var (x, now, after) := (worlds[n], events[n].now, worlds[n + 1].w.outstanding);
            match x.b.mode
            case Closed => after == x.w.outstanding + 1
            case Open =>
              && x.w.lastFailed.Some?
              && after == if now - x.w.lastFailed.value > s.timeout then x.w.outstanding + 1 else x.w.outstanding
            case HalfOpen =>
              && after == (if x.b.halfOpenActive < s.successThreshold then x.w.outstanding + 1 else x.w.outstanding)
              && (x.w.outstanding < s.successThreshold ==> after == x.w.outstanding + 1)
  {
    RunKeepsInv(s, worlds, events, n);
  }

  /** A breaker that has failed and is asked too early refuses, and is as it was. */
  lemma OpenRefuses(s: Settings, worlds: seq<World>, events: seq<Event>, n: nat)
    requires IsRun(s, worlds, events) && worlds[0] == START && n < |events| && events[n].Start?
    requires worlds[n].b.mode.Open? && worlds[n].w.lastFailed.Some?
    requires events[n].now - worlds[n].w.lastFailed.value <= s.timeout
    ensures worlds[n + 1] == worlds[n]
  {
    RunKeepsInv(s, worlds, events, n);
  }
}
