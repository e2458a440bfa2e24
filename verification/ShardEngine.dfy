/** One shard of internal/gateway/gateway.go: dispatchers, workers and slow recovery share a bounded queue, a pending
    counter and a wait group. Every atomic operation and every channel operation is one step, and any number of
    goroutines take their steps in any order. */
module ShardEngine {
  import opened Wrappers

  type Id = nat    // a request
  type Tid = nat   // a goroutine that takes requests

  datatype Outcome = Responded(response: nat) | Failed(error: nat)

  /** Plain requests carry no reply channel; Buffered ones do, but nobody waits; a Sync dispatcher waits. */
  datatype Kind = Plain | Buffered | Sync

  /** What a dispatcher does next. */
  datatype Dispatching =
    | Arrived        // load pending
    | Hot            // compare and swap recovering
    | Spawning       // start slow recovery
    | Joining        // add one to the wait group
    | Counting       // add one to pending
    | Sending        // send, or find the queue full
    | RollingBack    // take one from pending
    | Leaving        // leave the wait group
    | Rejected
    | Accepted       // an asynchronous dispatcher has returned, a synchronous one receives
    | Answered(outcome: Outcome)

  /** A request and its dispatcher. `runs` and `sent` are history: what the handler returned, each time it was called,
      and how many replies were sent. `buffer` is what the reply channel holds. */
  datatype Call = Call(kind: Kind, phase: Dispatching, runs: seq<Outcome>, sent: nat, buffer: seq<Outcome>)
  {
    function Ran(outcome: Outcome): Call {
      this.(runs := runs + [outcome])
    }

    function Sent(outcome: Outcome): Call {
      this.(sent := sent + 1, buffer := buffer + [outcome])
    }

    function Received(): Call
      requires buffer != []
    {
      this.(phase := Answered(buffer[0]), buffer := buffer[1..])
    }
  }

  /** What a worker or a slow recovery does next. */
  datatype Taking =
    | Locking
    | Ready                               // receive
    | Took(id: Id)                        // take one from pending
    | Working(id: Id)                     // call the handler
    | Replying(id: Id, outcome: Outcome)  // send the reply
    | Finishing(id: Id)                   // leave the wait group
    | Unlocking
    | Clearing                            // clear recovering
    | Exited

  datatype Taker = Taker(helper: bool, rounds: nat, phase: Taking)

  datatype Config = Config(capacity: nat, threshold: real, batch: nat)

  type Settings = c: Config | c.capacity > 0 witness Config(1, 0.9, 16)

  datatype State = State(
    config: Settings,
    queue: seq<Id>,
    pending: int,
    wg: int,
    recovering: bool,
    locked: bool,
    closed: bool,
    calls: map<Id, Call>,
    takers: map<Tid, Taker>,
    done: set<Id>)

  datatype Event =
    | Arrive(id: Id, kind: Kind)
    | Dispatcher(id: Id, helper: Tid)      // `helper` names the goroutine that slow recovery gets
    | Take(tid: Tid, outcome: Outcome)     // `outcome` is what the handler returns
    | StartWorker(tid: Tid)
    | Close

  // ---------------------------------------------------------------- steps

  function Init(config: Settings): State {
    State(config, [], 0, 0, false, false, false, map[], map[], {})
  }

  /** The requests once this one's dispatcher has come to this phase. */
  function At(s: State, id: Id, phase: Dispatching): map<Id, Call>
    requires id in s.calls
  {
    s.calls[id := s.calls[id].(phase := phase)]
  }

  /** The goroutines once this one has come to this phase. */
  function Doing(s: State, tid: Tid, phase: Taking): map<Tid, Taker>
    requires tid in s.takers
  {
    s.takers[tid := s.takers[tid].(phase := phase)]
  }

  /** Dispatch looks at the load and starts a slow recovery if none is running. */
  function CheckLoad(s: State, id: Id, helper: Tid): Option<State>
    requires id in s.calls
  {
    match s.calls[id].phase
    case Arrived =>
      var utilization := s.pending as real / s.config.capacity as real;
      Some(s.(calls := At(s, id, if utilization > s.config.threshold then Hot else Joining)))
    case Hot =>
      if s.recovering then Some(s.(calls := At(s, id, Joining)))
      else Some(s.(calls := At(s, id, Spawning), recovering := true))
    case Spawning =>
      if helper in s.takers then None
      else Some(s.(calls := At(s, id, Joining), takers := s.takers[helper := Taker(true, 0, Locking)]))
    case _ => None
  }

  function Accounted(s: State, id: Id, phase: Dispatching, pending: int, wg: int): State
    requires id in s.calls
  {
    s.(calls := At(s, id, phase), pending := s.pending + pending, wg := s.wg + wg)
  }

  /** Dispatch counts the request in before it sends, and out again when the queue was full. */
  function Account(s: State, id: Id): Option<State>
    requires id in s.calls
  {
    match s.calls[id].phase
    case Joining => Some(Accounted(s, id, Counting, 0, 1))
    case Counting => Some(Accounted(s, id, Sending, 1, 0))
    case RollingBack => Some(Accounted(s, id, Leaving, 0 - 1, 0))
    case Leaving => Some(Accounted(s, id, Rejected, 0, 0 - 1))
    case _ => None
  }

  /** Dispatch sends, or finds the queue full. Sending to a closed queue is not part of this model. */
  function Send(s: State, id: Id): Option<State>
    requires id in s.calls
  {
    if s.closed then None
    else if |s.queue| < s.config.capacity then Some(s.(calls := At(s, id, Accepted), queue := s.queue + [id]))
    else Some(s.(calls := At(s, id, RollingBack)))
  }

  /** A synchronous dispatcher receives its reply. */
  function Receive(s: State, id: Id): Option<State>
    requires id in s.calls
  {
    var call := s.calls[id];
    if call.phase.Accepted? && call.kind.Sync?
        && call.buffer != [] then Some(s.(calls := s.calls[id := call.Received()]))
    else None
  }

  /** A dispatcher's next step; none if it has returned or has to wait. */
  function DispatcherStep(s: State, id: Id, helper: Tid): Option<State>
    requires id in s.calls
  {
    var phase := s.calls[id].phase;
    if phase.Arrived? || phase.Hot? || phase.Spawning? then CheckLoad(s, id, helper)
    else if phase.Sending? then Send(s, id)
    else if phase.Accepted? then Receive(s, id)
    else Account(s, id)
  }

  /** What a slow recovery does around its loop. */
  function Recover(s: State, tid: Tid): Option<State>
    requires tid in s.takers
  {
    match s.takers[tid].phase
    case Locking => if s.locked then None else Some(s.(takers := Doing(s, tid, Ready), locked := true))
    case Unlocking => Some(s.(takers := Doing(s, tid, Clearing), locked := false))
    case Clearing => Some(s.(takers := Doing(s, tid, Exited), recovering := false))
    case _ => None
  }

  /** Receives the next request. A worker waits for one until the queue is closed; a slow recovery does not wait,
      and takes no more than a batch. */
  function TakeNext(s: State, tid: Tid): Option<State>
    requires tid in s.takers
  {
    var taker := s.takers[tid];
    if taker.helper && taker.rounds >= s.config.batch then Some(s.(takers := Doing(s, tid, Unlocking)))
    else if s.queue != [] then
      Some(s.(queue := s.queue[1..], takers := s.takers[tid := Taker(taker.helper, taker.rounds + 1,
          Took(s.queue[0]))]))
    else if taker.helper then Some(s.(takers := Doing(s, tid, Unlocking)))
    else if s.closed then Some(s.(takers := Doing(s, tid, Exited)))
    else None
  }

  /** Counts a received request down: from pending before the handler runs, from the wait group when all is done. */
  function CountDown(s: State, tid: Tid): Option<State>
    requires tid in s.takers && Holds(s.takers[tid])
  {
    var id := s.takers[tid].phase.id;
    match s.takers[tid].phase
    case Took(_) => Some(s.(takers := Doing(s, tid, Working(id)), pending := s.pending - 1))
    case Finishing(_) => Some(s.(takers := Doing(s, tid, Ready), wg := s.wg - 1, done := s.done + {id}))
    case _ => None
  }

  /** Runs the handler, and then sends its result if there is a reply channel; none while that channel is full. */
  function Serve(s: State, tid: Tid, outcome: Outcome): Option<State>
    requires tid in s.takers && Holds(s.takers[tid])
  {
    var id := s.takers[tid].phase.id;
    if id !in s.calls then None
    else
      var call := s.calls[id];
      match s.takers[tid].phase
      case Working(_) => Some(s.(takers := Doing(s, tid, Replying(id, outcome)),
          calls := s.calls[id := call.Ran(outcome)]))
      case Replying(_, result) =>
        if call.kind.Plain? then Some(s.(takers := Doing(s, tid, Finishing(id))))
        else if |call.buffer| == 1 then None
        else Some(s.(takers := Doing(s, tid, Finishing(id)), calls := s.calls[id := call.Sent(result)]))
      case _ => None
  }

  /** The next step of a worker or a slow recovery; none if it has ended or has to wait. */
  function TakerStep(s: State, tid: Tid, outcome: Outcome): Option<State>
    requires tid in s.takers
  {
    var phase := s.takers[tid].phase;
    if phase.Working? || phase.Replying? then Serve(s, tid, outcome)
    else if phase.Took? || phase.Finishing? then CountDown(s, tid)
    else if phase.Ready? then TakeNext(s, tid)
    else Recover(s, tid)
  }

  function Step(s: State, e: Event): Option<State> {
    match e
    case Arrive(id, kind) => if id in s.calls then None
        else Some(s.(calls := s.calls[id := Call(kind, Arrived, [], 0, [])]))
    case Dispatcher(id, helper) => if id in s.calls then DispatcherStep(s, id, helper) else None
    case Take(tid, outcome) => if tid in s.takers then TakerStep(s, tid, outcome) else None
    case StartWorker(tid) => if tid in s.takers then None
        else Some(s.(takers := s.takers[tid := Taker(false, 0, Ready)]))
    case Close => if s.closed then None else Some(s.(closed := true))
  }

  /** The state a run ends in; none if one of its steps was not possible. */
  function Run(s: State, events: seq<Event>): Option<State>
    decreases |events|
  {
    if events == [] then Some(s)
    else
      var next := Step(s, events[0]);
      if next.None? then None else Run(next.value, events[1..])
  }

  ghost predicate Reachable(s: State) {
    exists events :: Run(Init(s.config), events) == Some(s)
  }

  // ---------------------------------------------------------------- counting

  ghost function Those<K, V>(m: map<K, V>, p: V -> bool): set<K> {
    set k | k in m && p(m[k])
  }

  ghost function Bit(b: bool): nat {
    if b then 1 else 0
  }

  /** An update changes a count by what it takes out and what it puts in. */
  ghost predicate Recounts<K, V>(m: map<K, V>, k: K, v: V, p: V -> bool) {
    |Those(m[k := v], p)| == |Those(m, p)| - Bit(k in m && p(m[k])) + Bit(p(v))
  }

  lemma ThoseAfter<K, V>(m: map<K, V>, k: K, v: V, p: V -> bool)
    ensures Recounts(m, k, v, p)
  {
    var before, after := Those(m, p), Those(m[k := v], p);
    assert after - {k} == before - {k};
    SizeWithout(before, k);
    SizeWithout(after, k);
  }

  lemma SizeWithout<K>(s: set<K>, k: K)
    ensures |s| == |s - {k}| + Bit(k in s)
  {
    if k in s {
      assert s == (s - {k}) + {k};
    } else {
      assert s == s - {k};
    }
  }

  // ---------------------------------------------------------------- the invariant

  /** The request is in the queue, was taken from it, or is done. */
  predicate WasAccepted(c: Call) {
    c.phase.Accepted? || c.phase.Answered?
  }

  predicate CountsPending(c: Call) {
    c.phase.Sending? || c.phase.RollingBack?
  }

  predicate CountsInGroup(c: Call) {
    c.phase.Counting? || c.phase.Sending? || c.phase.RollingBack? || c.phase.Leaving?
  }

  predicate WillSpawn(c: Call) {
    c.phase.Spawning?
  }

  predicate HasCounted(t: Taker) {
    t.phase.Took?
  }

  predicate Holds(t: Taker) {
    t.phase.Took? || t.phase.Working? || t.phase.Replying? || t.phase.Finishing?
  }

  predicate IsRecovering(t: Taker) {
    t.helper && !t.phase.Exited?
  }

  predicate HasLock(t: Taker) {
    t.helper && !t.phase.Locking? && !t.phase.Clearing? && !t.phase.Exited?
  }

  function HoldsThis(id: Id): Taker -> bool {
    (t: Taker) => Holds(t) && t.phase.id == id
  }

  ghost function Holders(s: State, id: Id): set<Tid> {
    Those(s.takers, HoldsThis(id))
  }

  /** In how many places a request is: entries of the queue, goroutines that hold it, and done. */
  ghost function Places(s: State, id: Id): nat {
    multiset(s.queue)[id] + |Holders(s, id)| + Bit(id in s.done)
  }

  ghost predicate CountersAgree(s: State) {
    && s.pending == |s.queue| + |Those(s.calls, CountsPending)| + |Those(s.takers, HasCounted)|
    && s.wg == |s.queue| + |Those(s.calls, CountsInGroup)| + |Those(s.takers, Holds)|
    && |s.queue| <= s.config.capacity
  }

  ghost predicate OneRecovery(s: State) {
    && Bit(s.recovering) == |Those(s.calls, WillSpawn)| + |Those(s.takers, IsRecovering)|
    && Bit(s.locked) == |Those(s.takers, HasLock)|
    && forall tid | tid in s.takers ::
         && (!s.takers[tid].helper ==> !s.takers[tid].phase.Locking? && !s.takers[tid].phase.Unlocking? && !s.takers[tid].phase.Clearing?)
         && (s.takers[tid].helper ==> s.takers[tid].rounds <= s.config.batch)
  }

  ghost predicate OnePlace(s: State) {
    forall id :: Places(s, id) == Bit(id in s.calls && WasAccepted(s.calls[id]))
  }

  predicate Untouched(c: Call) {
    c.runs == [] && c.sent == 0
  }

  /** How far a request has come, for a goroutine in this phase. */
  predicate HeldWell(c: Call, phase: Taking) {
    match phase
    case Took(_) => Untouched(c)
    case Working(_) => Untouched(c)
    case Replying(_, outcome) => c.runs == [outcome] && c.sent == 0
    case _ => Handled(c)
  }

  /** Handled once, and replied to once if there is a reply channel. */
  predicate Handled(c: Call) {
    |c.runs| == 1 && c.sent == if c.kind.Plain? then 0 else 1
  }

  /** The reply channel holds what was sent and not received, and that is what the handler returned. */
  predicate ChannelWell(c: Call) {
    && c.sent == |c.buffer| + (if c.phase.Answered? then 1 else 0)
    && (c.buffer != [] ==> |c.buffer| == 1 && c.runs == c.buffer)
    && (c.phase.Answered? ==> c.kind.Sync? && c.runs == [c.phase.outcome])
  }

  ghost predicate CallsWell(s: State) {
    forall id | id in s.calls :: ChannelWell(s.calls[id]) && (WasAccepted(s.calls[id]) || Untouched(s.calls[id]))
  }

  ghost predicate QueueWell(s: State) {
    forall id | id in s.queue && id in s.calls :: Untouched(s.calls[id])
  }

  ghost predicate HoldersWell(s: State) {
    forall tid | tid in s.takers && Holds(s.takers[tid]) && s.takers[tid].phase.id in s.calls ::
      HeldWell(s.calls[s.takers[tid].phase.id], s.takers[tid].phase)
  }

  ghost predicate DoneWell(s: State) {
    forall id | id in s.done && id in s.calls :: Handled(s.calls[id])
  }

  ghost predicate Progress(s: State) {
    CallsWell(s) && QueueWell(s) && HoldersWell(s) && DoneWell(s)
  }

  /** A worker ends only when the queue is closed and empty. */
  ghost predicate WorkersStay(s: State) {
    forall tid | tid in s.takers && !s.takers[tid].helper && s.takers[tid].phase.Exited? :: s.closed && s.queue == []
  }

  ghost predicate Inv(s: State) {
    CountersAgree(s) && OneRecovery(s) && OnePlace(s) && Progress(s) && WorkersStay(s)
  }

  // ---------------------------------------------------------------- every step keeps it

  lemma InitInv(config: Settings)
    ensures Inv(Init(config))
  {
    var s := Init(config);
    assert forall id :: Holders(s, id) == {};
    assert Those(s.calls, CountsPending) == Those(s.calls, CountsInGroup) == Those(s.calls, WillSpawn) == {};
    assert Those(s.takers, HasCounted) == Those(s.takers, Holds) == Those(s.takers, IsRecovering) == Those(s.takers,
        HasLock) == {};
  }

  lemma CallCounts(s: State, id: Id, c: Call)
    ensures Recounts(s.calls, id, c, CountsPending) && Recounts(s.calls, id, c, CountsInGroup)
    ensures Recounts(s.calls, id, c, WillSpawn)
  {
    ThoseAfter(s.calls, id, c, CountsPending);
    ThoseAfter(s.calls, id, c, CountsInGroup);
    ThoseAfter(s.calls, id, c, WillSpawn);
  }

  lemma TakerCounts(s: State, tid: Tid, t: Taker)
    ensures Recounts(s.takers, tid, t, HasCounted) && Recounts(s.takers, tid, t, Holds)
    ensures Recounts(s.takers, tid, t, IsRecovering) && Recounts(s.takers, tid, t, HasLock)
  {
    ThoseAfter(s.takers, tid, t, HasCounted);
    ThoseAfter(s.takers, tid, t, Holds);
    ThoseAfter(s.takers, tid, t, IsRecovering);
    ThoseAfter(s.takers, tid, t, HasLock);
  }

  lemma HolderCount(s: State, tid: Tid, t: Taker, id: Id)
    ensures Recounts(s.takers, tid, t, HoldsThis(id))
  {
    ThoseAfter(s.takers, tid, t, HoldsThis(id));
  }

  /** A request that a goroutine holds is nowhere else. */
  lemma HeldAlone(s: State, tid: Tid)
    requires OnePlace(s) && tid in s.takers && Holds(s.takers[tid])
    ensures var id := s.takers[tid].phase.id;
            && id in s.calls && WasAccepted(s.calls[id]) && id !in s.queue && id !in s.done
            && forall other | other in s.takers && other != tid
                && Holds(s.takers[other]) :: s.takers[other].phase.id != id
  {
    var id := s.takers[tid].phase.id;
    var holders := Holders(s, id);
    assert tid in holders;
    assert Places(s, id) == 1 && |holders| == 1;
    assert |holders - {tid}| == 0;
    forall other | other in s.takers && other != tid && Holds(s.takers[other])
      ensures s.takers[other].phase.id != id
    {
      assert other !in holders - {tid};
    }
  }

  /** The first request of the queue is nowhere else. */
  lemma QueuedAlone(s: State, k: nat)
    requires OnePlace(s) && k < |s.queue|
    ensures var id := s.queue[k];
            && id in s.calls && WasAccepted(s.calls[id]) && id !in s.done
            && multiset(s.queue)[id] == 1
            && forall tid | tid in s.takers && Holds(s.takers[tid]) :: s.takers[tid].phase.id != id
  {
    var id := s.queue[k];
    assert id in multiset(s.queue);
    assert Places(s, id) == 1;
    assert Holders(s, id) == {};
    forall tid | tid in s.takers && Holds(s.takers[tid])
      ensures s.takers[tid].phase.id != id
    {
      assert tid !in Holders(s, id);
    }
  }

  predicate CallMoves(before: Call, after: Call) {
    if after.phase.Answered? then
      before.phase.Accepted? && before.kind.Sync? && before.buffer != [] && after == before.Received()
    else
      !before.phase.Answered? && after == before.(phase := after.phase)
  }

  /** What a dispatcher's step leaves alone, and how its request moves. */
  ghost predicate DispatcherMoves(s: State, t: State, id: Id, helper: Tid)
    requires id in s.calls
  {
    && t.config == s.config && t.locked == s.locked && t.closed == s.closed && t.done == s.done
    && id in t.calls && t.calls == s.calls[id := t.calls[id]] && CallMoves(s.calls[id], t.calls[id])
    && (if s.calls[id].phase.Spawning? then helper !in s.takers
        && t.takers == s.takers[helper := Taker(true, 0, Locking)]
        else t.takers == s.takers)
    && (if s.calls[id].phase.Sending? && t.calls[id].phase.Accepted? then
          t.queue == s.queue + [id] && |t.queue| <= s.config.capacity && !s.closed
        else t.queue == s.queue && WasAccepted(t.calls[id]) == WasAccepted(s.calls[id]))
    && (s.calls[id].phase.Sending? ==> (t.calls[id].phase.Accepted? <==> |s.queue| < s.config.capacity))
  }

  /** What a dispatcher's step adds to what is counted. */
  ghost predicate DispatcherAdds(s: State, t: State, id: Id)
    requires id in s.calls && id in t.calls
  {
    var before, after := s.calls[id], t.calls[id];
    && t.pending - s.pending == |t.queue| - |s.queue| + Bit(CountsPending(after)) - Bit(CountsPending(before))
    && t.wg - s.wg == |t.queue| - |s.queue| + Bit(CountsInGroup(after)) - Bit(CountsInGroup(before))
    && Bit(t.recovering) - Bit(s.recovering)
        == Bit(WillSpawn(after)) - Bit(WillSpawn(before)) + Bit(before.phase.Spawning?)
  }

  ghost predicate DispatcherEffect(s: State, t: State, id: Id, helper: Tid)
    requires id in s.calls
  {
    DispatcherMoves(s, t, id, helper) && DispatcherAdds(s, t, id)
  }

  lemma ArrivedDoes(s: State, t: State, id: Id, helper: Tid)
    requires id in s.calls && s.calls[id].phase.Arrived? && CheckLoad(s, id, helper) == Some(t)
    ensures DispatcherEffect(s, t, id, helper)
  {
  }

  lemma HotDoes(s: State, t: State, id: Id, helper: Tid)
    requires id in s.calls && s.calls[id].phase.Hot? && CheckLoad(s, id, helper) == Some(t)
    ensures DispatcherEffect(s, t, id, helper)
  {
  }

  lemma SpawningDoes(s: State, t: State, id: Id, helper: Tid)
    requires id in s.calls && s.calls[id].phase.Spawning? && CheckLoad(s, id, helper) == Some(t)
    ensures DispatcherEffect(s, t, id, helper)
  {
  }

  lemma AccountedDoes(s: State, id: Id, phase: Dispatching, pending: int, wg: int)
    requires id in s.calls
    ensures var t := Accounted(s, id, phase, pending, wg);
            && t.config == s.config && t.locked == s.locked && t.closed == s.closed && t.done == s.done
            && t.queue == s.queue && t.takers == s.takers && t.recovering == s.recovering
            && t.pending == s.pending + pending && t.wg == s.wg + wg
            && t.calls == s.calls[id := s.calls[id].(phase := phase)]
  {
  }

  lemma AccountDoes(s: State, t: State, id: Id, helper: Tid)
    requires id in s.calls && Account(s, id) == Some(t)
    ensures DispatcherEffect(s, t, id, helper)
  {
    hide Accounted;
    AccountedDoes(s, id, Counting, 0, 1);
    AccountedDoes(s, id, Sending, 1, 0);
    AccountedDoes(s, id, Leaving, 0 - 1, 0);
    AccountedDoes(s, id, Rejected, 0, 0 - 1);
  }

  lemma SendDoes(s: State, t: State, id: Id, helper: Tid)
    requires id in s.calls && s.calls[id].phase.Sending? && Send(s, id) == Some(t)
    ensures DispatcherEffect(s, t, id, helper)
  {
  }

  lemma ReceiveDoes(s: State, t: State, id: Id, helper: Tid)
    requires id in s.calls && Receive(s, id) == Some(t)
    ensures DispatcherEffect(s, t, id, helper)
  {
  }

  lemma DispatcherCounters(s: State, t: State, id: Id, helper: Tid)
    requires CountersAgree(s) && id in s.calls && DispatcherEffect(s, t, id, helper)
    ensures CountersAgree(t)
  {
    hide Those;
    CallCounts(s, id, t.calls[id]);
    TakerCounts(s, helper, Taker(true, 0, Locking));
  }

  lemma DispatcherRecovery(s: State, t: State, id: Id, helper: Tid)
    requires OneRecovery(s) && id in s.calls && DispatcherEffect(s, t, id, helper)
    ensures OneRecovery(t)
  {
    hide Those;
    CallCounts(s, id, t.calls[id]);
    TakerCounts(s, helper, Taker(true, 0, Locking));
  }

  lemma DispatcherPlaces(s: State, t: State, id: Id, helper: Tid)
    requires OnePlace(s) && id in s.calls && DispatcherEffect(s, t, id, helper)
    ensures OnePlace(t)
  {
    hide Those;
    forall other: Id
      ensures Places(t, other) == Bit(other in t.calls && WasAccepted(t.calls[other]))
    {
      assert Places(s, other) == Bit(other in s.calls && WasAccepted(s.calls[other]));
      HolderCount(s, helper, Taker(true, 0, Locking), other);
    }
  }

  predicate ServeMoves(before: Call, after: Call, from: Taking, to: Taking) {
    match from
    case Working(_) => to.Replying? && after == before.Ran(to.outcome)
    case Replying(_, outcome) =>
      to.Finishing? && if before.kind.Plain? then after == before else |before.buffer| != 1 && after == before.Sent(outcome)
    case _ => false
  }

  /** What a taker's step leaves alone, and how the request it deals with moves. */
  ghost predicate TakerMoves(s: State, t: State, tid: Tid)
    requires tid in s.takers
  {
    && t.config == s.config && t.closed == s.closed
    && tid in t.takers && t.takers == s.takers[tid := t.takers[tid]]
    && var before, after := s.takers[tid], t.takers[tid];
       && after.helper == before.helper
       && (if before.phase.Ready? && after.phase.Took? then
             && s.queue != [] && after.phase.id == s.queue[0] && t.queue == s.queue[1..] && t.done == s.done
           else if before.phase.Finishing? then
             t.queue == s.queue && !Holds(after) && t.done == s.done + {before.phase.id}
           else
             && t.queue == s.queue && t.done == s.done
             && Holds(after) == Holds(before) && (Holds(before) ==> after.phase.id == before.phase.id))
       && (if before.phase.Working? || before.phase.Replying? then
             && before.phase.id in s.calls && before.phase.id in t.calls
             && t.calls == s.calls[before.phase.id := t.calls[before.phase.id]]
             && t.calls[before.phase.id].phase == s.calls[before.phase.id].phase
             && ServeMoves(s.calls[before.phase.id], t.calls[before.phase.id], before.phase, after.phase)
           else t.calls == s.calls)
       && (before.phase.Took? ==> after.phase.Working?)
       && (!after.helper && after.phase.Exited? ==> s.closed && s.queue == [])
  }

  /** What a taker's step adds to what is counted. */
  ghost predicate TakerAdds(s: State, t: State, tid: Tid)
    requires tid in s.takers && tid in t.takers
  {
    var before, after := s.takers[tid], t.takers[tid];
    && !before.phase.Exited?
    && t.pending - s.pending == |t.queue| - |s.queue| + Bit(HasCounted(after)) - Bit(HasCounted(before))
    && t.wg - s.wg == |t.queue| - |s.queue| + Bit(Holds(after)) - Bit(Holds(before))
    && (before.helper || before.phase.Ready? || Holds(before) ==>
         && Bit(t.recovering) - Bit(s.recovering) == Bit(IsRecovering(after)) - Bit(IsRecovering(before))
         && Bit(t.locked) - Bit(s.locked) == Bit(HasLock(after)) - Bit(HasLock(before)))
    && (after.helper && before.rounds <= s.config.batch ==> after.rounds <= s.config.batch)
    && (!after.helper && (before.phase.Ready? || Holds(before)) ==>
          !after.phase.Locking? && !after.phase.Unlocking? && !after.phase.Clearing?)
  }

  ghost predicate TakerEffect(s: State, t: State, tid: Tid)
    requires tid in s.takers
  {
    TakerMoves(s, t, tid) && TakerAdds(s, t, tid)
  }

  lemma RecoverDoes(s: State, t: State, tid: Tid)
    requires tid in s.takers && s.takers[tid].helper && Recover(s, tid) == Some(t)
    requires (s.takers[tid].phase.Unlocking? ==> s.locked) && (s.takers[tid].phase.Clearing? ==> s.recovering)
    ensures TakerEffect(s, t, tid)
  {
  }

  lemma TakeNextDoes(s: State, t: State, tid: Tid)
    requires tid in s.takers && s.takers[tid].phase.Ready? && TakeNext(s, tid) == Some(t)
    ensures TakerEffect(s, t, tid)
  {
  }

  lemma CountDownDoes(s: State, t: State, tid: Tid)
    requires tid in s.takers && Holds(s.takers[tid]) && CountDown(s, tid) == Some(t)
    ensures TakerEffect(s, t, tid)
  {
  }

  lemma RunDoes(s: State, t: State, tid: Tid, outcome: Outcome)
    requires tid in s.takers && s.takers[tid].phase.Working? && Serve(s, tid, outcome) == Some(t)
    ensures TakerEffect(s, t, tid)
  {
  }

  lemma ReplyDoes(s: State, t: State, tid: Tid, outcome: Outcome)
    requires tid in s.takers && s.takers[tid].phase.Replying? && Serve(s, tid, outcome) == Some(t)
    ensures TakerEffect(s, t, tid)
  {
  }

  lemma TakerCounters(s: State, t: State, tid: Tid)
    requires CountersAgree(s) && tid in s.takers && TakerEffect(s, t, tid)
    ensures CountersAgree(t)
  {
    hide Those;
    TakerCounts(s, tid, t.takers[tid]);
    var before := s.takers[tid];
    if before.phase.Working? || before.phase.Replying? {
      CallCounts(s, before.phase.id, t.calls[before.phase.id]);
    }
  }

  lemma TakerRecovery(s: State, t: State, tid: Tid)
    requires OneRecovery(s) && tid in s.takers && TakerEffect(s, t, tid)
    ensures OneRecovery(t)
  {
    hide Those;
    TakerCounts(s, tid, t.takers[tid]);
    var before := s.takers[tid];
    if before.phase.Working? || before.phase.Replying? {
      CallCounts(s, before.phase.id, t.calls[before.phase.id]);
    }
  }

  lemma TakerPlacesOf(s: State, t: State, tid: Tid, id: Id)
    requires OnePlace(s) && tid in s.takers && TakerMoves(s, t, tid)
    ensures Places(t, id) == Bit(id in t.calls && WasAccepted(t.calls[id]))
  {
    if Holds(s.takers[tid]) {
      HeldAlone(s, tid);
    }
    assert Places(s, id) == Bit(id in s.calls && WasAccepted(s.calls[id]));
    HolderCount(s, tid, t.takers[tid], id);
    hide Those;
    hide OnePlace;
    assert s.queue != [] ==> s.queue == [s.queue[0]] + s.queue[1..];
  }

  lemma TakerPlaces(s: State, t: State, tid: Tid)
    requires OnePlace(s) && tid in s.takers && TakerEffect(s, t, tid)
    ensures OnePlace(t)
  {
    forall id: Id
      ensures Places(t, id) == Bit(id in t.calls && WasAccepted(t.calls[id]))
    {
      TakerPlacesOf(s, t, tid, id);
    }
  }

  // Progress of requests.

  lemma HeldWereAccepted(s: State)
    requires OnePlace(s)
    ensures forall tid | tid in s.takers && Holds(s.takers[tid]) ::
              s.takers[tid].phase.id in s.calls && WasAccepted(s.calls[s.takers[tid].phase.id])
  {
    forall tid | tid in s.takers && Holds(s.takers[tid])
      ensures s.takers[tid].phase.id in s.calls && WasAccepted(s.calls[s.takers[tid].phase.id])
    {
      HeldAlone(s, tid);
    }
  }

  lemma DispatcherCallsWell(s: State, t: State, id: Id, helper: Tid)
    requires Progress(s) && WorkersStay(s) && id in s.calls && DispatcherEffect(s, t, id, helper)
    ensures CallsWell(t) && QueueWell(t) && DoneWell(t) && WorkersStay(t)
  {
    hide DispatcherAdds;
    hide HoldersWell;
  }

  lemma DispatcherHoldersWell(s: State, t: State, id: Id, helper: Tid)
    requires OnePlace(s) && Progress(s) && id in s.calls && DispatcherEffect(s, t, id, helper)
    ensures HoldersWell(t)
  {
    HeldWereAccepted(s);
    hide OnePlace;
    hide DispatcherAdds;
    hide QueueWell;
    hide DoneWell;
  }

  lemma TakerCallsWell(s: State, t: State, tid: Tid)
    requires OnePlace(s) && Progress(s) && tid in s.takers && TakerEffect(s, t, tid)
    ensures CallsWell(t)
    ensures WorkersStay(s) ==> WorkersStay(t)
  {
    if Holds(s.takers[tid]) {
      HeldAlone(s, tid);
    }
    hide Those;
    hide OnePlace;
  }

  lemma TakerHoldersWell(s: State, t: State, tid: Tid)
    requires OnePlace(s) && Progress(s) && tid in s.takers && TakerEffect(s, t, tid)
    ensures HoldersWell(t)
  {
    if Holds(s.takers[tid]) {
      HeldAlone(s, tid);
    }
    if s.queue != [] {
      QueuedAlone(s, 0);
    }
    hide Those;
    hide OnePlace;
    hide CallsWell;
    hide DoneWell;
  }

  lemma TakerOthersWell(s: State, t: State, tid: Tid)
    requires OnePlace(s) && Progress(s) && tid in s.takers && TakerEffect(s, t, tid)
    ensures QueueWell(t) && DoneWell(t)
  {
    if Holds(s.takers[tid]) {
      HeldAlone(s, tid);
    }
    hide Those;
    hide OnePlace;
    hide CallsWell;
  }

  // Every step keeps the invariant.

  lemma DispatcherDoes(s: State, t: State, id: Id, helper: Tid)
    requires id in s.calls && DispatcherStep(s, id, helper) == Some(t)
    ensures DispatcherEffect(s, t, id, helper)
  {
    hide DispatcherEffect;
    hide CheckLoad;
    hide Send;
    hide Receive;
    hide Account;
    var phase := s.calls[id].phase;
    if phase.Arrived? {
      ArrivedDoes(s, t, id, helper);
    } else if phase.Hot? {
      HotDoes(s, t, id, helper);
    } else if phase.Spawning? {
      SpawningDoes(s, t, id, helper);
    } else if phase.Sending? {
      SendDoes(s, t, id, helper);
    } else if phase.Accepted? {
      ReceiveDoes(s, t, id, helper);
    } else {
      AccountDoes(s, t, id, helper);
    }
  }

  lemma TakerDoes(s: State, t: State, tid: Tid, outcome: Outcome)
    requires OneRecovery(s) && tid in s.takers && TakerStep(s, tid, outcome) == Some(t)
    ensures TakerEffect(s, t, tid)
  {
    hide TakerEffect;
    hide Serve;
    hide CountDown;
    hide TakeNext;
    var phase := s.takers[tid].phase;
    if phase.Working? {
      RunDoes(s, t, tid, outcome);
    } else if phase.Replying? {
      ReplyDoes(s, t, tid, outcome);
    } else if phase.Took? || phase.Finishing? {
      CountDownDoes(s, t, tid);
    } else if phase.Ready? {
      TakeNextDoes(s, t, tid);
    } else {
      assert tid in Those(s.takers, IsRecovering);
      assert phase.Unlocking? ==> tid in Those(s.takers, HasLock);
      RecoverDoes(s, t, tid);
    }
  }

  lemma DispatcherKeepsInv(s: State, t: State, id: Id, helper: Tid)
    requires Inv(s) && id in s.calls && DispatcherStep(s, id, helper) == Some(t)
    ensures Inv(t)
  {
    DispatcherDoes(s, t, id, helper);
    hide DispatcherStep;
    hide DispatcherMoves;
    hide DispatcherAdds;
    hide CountersAgree;
    hide OneRecovery;
    hide OnePlace;
    hide CallsWell;
    hide QueueWell;
    hide HoldersWell;
    hide DoneWell;
    hide WorkersStay;
    DispatcherCounters(s, t, id, helper);
    DispatcherRecovery(s, t, id, helper);
    DispatcherPlaces(s, t, id, helper);
    DispatcherCallsWell(s, t, id, helper);
    DispatcherHoldersWell(s, t, id, helper);
  }

  lemma TakerKeepsInv(s: State, t: State, tid: Tid, outcome: Outcome)
    requires Inv(s) && tid in s.takers && TakerStep(s, tid, outcome) == Some(t)
    ensures Inv(t)
  {
    TakerDoes(s, t, tid, outcome);
    hide TakerStep;
    hide TakerMoves;
    hide TakerAdds;
    hide CountersAgree;
    hide OneRecovery;
    hide OnePlace;
    hide CallsWell;
    hide QueueWell;
    hide HoldersWell;
    hide DoneWell;
    hide WorkersStay;
    TakerCounters(s, t, tid);
    TakerRecovery(s, t, tid);
    TakerPlaces(s, t, tid);
    TakerCallsWell(s, t, tid);
    TakerHoldersWell(s, t, tid);
    TakerOthersWell(s, t, tid);
  }

  lemma NewPlaces(s: State, tid: Tid)
    requires tid !in s.takers
    ensures forall id :: |Those(s.takers[tid := Taker(false, 0, Ready)], HoldsThis(id))| == |Holders(s, id)|
  {
    forall id: Id
      ensures |Those(s.takers[tid := Taker(false, 0, Ready)], HoldsThis(id))| == |Holders(s, id)|
    {
      HolderCount(s, tid, Taker(false, 0, Ready), id);
    }
  }

  lemma ArriveKeepsCounts(s: State, id: Id, c: Call, t: State)
    requires CountersAgree(s) && OneRecovery(s) && WorkersStay(s) && id !in s.calls && c.phase.Arrived?
    requires t == s.(calls := s.calls[id := c])
    ensures CountersAgree(t) && OneRecovery(t) && WorkersStay(t)
  {
    CallCounts(s, id, c);
    hide Those;
  }

  lemma ArriveKeepsPlaces(s: State, id: Id, c: Call, t: State)
    requires OnePlace(s) && Progress(s) && id !in s.calls && c.phase.Arrived? && Untouched(c) && ChannelWell(c)
    requires t == s.(calls := s.calls[id := c])
    ensures OnePlace(t) && Progress(t)
  {
    HeldWereAccepted(s);
    assert Places(s, id) == 0;
    assert forall other :: Places(t, other) == Places(s, other);
    hide Places;
  }

  lemma ArriveKeepsInv(s: State, id: Id, kind: Kind)
    requires Inv(s) && id !in s.calls
    ensures Inv(s.(calls := s.calls[id := Call(kind, Arrived, [], 0, [])]))
  {
    var c := Call(kind, Arrived, [], 0, []);
    ArriveKeepsCounts(s, id, c, s.(calls := s.calls[id := c]));
    ArriveKeepsPlaces(s, id, c, s.(calls := s.calls[id := c]));
  }

  lemma StartKeepsCounts(s: State, tid: Tid, t: State)
    requires CountersAgree(s) && OneRecovery(s) && WorkersStay(s) && tid !in s.takers
    requires t == s.(takers := s.takers[tid := Taker(false, 0, Ready)])
    ensures CountersAgree(t) && OneRecovery(t) && WorkersStay(t)
  {
    TakerCounts(s, tid, t.takers[tid]);
    hide Those;
  }

  lemma StartKeepsPlaces(s: State, tid: Tid, t: State)
    requires OnePlace(s) && Progress(s) && tid !in s.takers
    requires t == s.(takers := s.takers[tid := Taker(false, 0, Ready)])
    ensures OnePlace(t) && Progress(t)
  {
    NewPlaces(s, tid);
    assert forall other :: Places(t, other) == Places(s, other);
    hide Places;
  }

  lemma StartKeepsInv(s: State, tid: Tid)
    requires Inv(s) && tid !in s.takers
    ensures Inv(s.(takers := s.takers[tid := Taker(false, 0, Ready)]))
  {
    var t := s.(takers := s.takers[tid := Taker(false, 0, Ready)]);
    StartKeepsCounts(s, tid, t);
    StartKeepsPlaces(s, tid, t);
  }

  lemma CloseKeepsInv(s: State)
    requires Inv(s)
    ensures Inv(s.(closed := true))
  {
    hide Those;
    assert forall other :: Places(s.(closed := true), other) == Places(s, other);
  }

  lemma ConfigStays(s: State, t: State, e: Event)
    requires OneRecovery(s) && Step(s, e) == Some(t)
    ensures t.config == s.config
  {
    hide DispatcherStep;
    hide TakerStep;
    match e
    case Dispatcher(id, helper) => DispatcherDoes(s, t, id, helper);
    case Take(tid, outcome) => TakerDoes(s, t, tid, outcome);
    case _ =>
  }

  lemma StepKeepsInv(s: State, t: State, e: Event)
    requires Inv(s) && Step(s, e) == Some(t)
    ensures Inv(t) && t.config == s.config
  {
    ConfigStays(s, t, e);
    hide Inv;
    hide DispatcherStep;
    hide TakerStep;
    match e
    case Arrive(id, kind) => ArriveKeepsInv(s, id, kind);
    case Dispatcher(id, helper) => DispatcherKeepsInv(s, t, id, helper);
    case Take(tid, outcome) => TakerKeepsInv(s, t, tid, outcome);
    case StartWorker(tid) => StartKeepsInv(s, tid);
    case Close => CloseKeepsInv(s);
  }

  /** The invariant holds in every state that any run of any goroutines reaches. */
  lemma {:induction false} RunKeepsInv(s: State, t: State, events: seq<Event>)
    requires Inv(s) && Run(s, events) == Some(t)
    ensures Inv(t) && t.config == s.config
    decreases |events|
  {
    hide Inv;
    hide Step;
    if events != [] {
      var next := Step(s, events[0]).value;
      StepKeepsInv(s, next, events[0]);
      RunKeepsInv(next, t, events[1..]);
    }
  }

  lemma ReachableInv(s: State)
    requires Reachable(s)
    ensures Inv(s)
  {
    var events :| Run(Init(s.config), events) == Some(s);
    InitInv(s.config);
    RunKeepsInv(Init(s.config), s, events);
  }

  // ---------------------------------------------------------------- what holds in every run

  /** A request is in exactly one place from when it was accepted, and in none before or when it was rejected. The
      handler never runs twice for it, and no second reply is ever sent; when it is done both have happened, and a
      dispatcher that was answered got what the handler returned. */
  lemma ExactlyOnce(s: State, id: Id)
    requires Reachable(s) && id in s.calls
    ensures Places(s, id) == Bit(WasAccepted(s.calls[id]))
    ensures |s.calls[id].runs| <= 1 && s.calls[id].sent <= 1
    ensures !WasAccepted(s.calls[id]) || id in s.queue ==> s.calls[id].runs == []
    ensures id in s.done ==> Handled(s.calls[id])
    ensures s.calls[id].phase.Answered? ==> s.calls[id].runs == [s.calls[id].phase.outcome] && s.calls[id].sent == 1
  {
    ReachableInv(s);
    if WasAccepted(s.calls[id]) && id !in s.done && id !in s.queue {
      assert Places(s, id) == 1 && id !in multiset(s.queue);
      assert Holders(s, id) != {};
      var tid :| tid in Holders(s, id);
      assert HeldWell(s.calls[id], s.takers[tid].phase);
    }
  }

  lemma HoldersGoOn(s: State, tid: Tid, outcome: Outcome)
    requires Inv(s) && tid in s.takers && Holds(s.takers[tid])
    ensures TakerStep(s, tid, outcome).Some? && s.takers[tid].phase.id in s.calls
    ensures s.takers[tid].phase.Replying? ==> s.calls[s.takers[tid].phase.id].buffer == []
  {
    HeldAlone(s, tid);
    hide Those;
    assert HeldWell(s.calls[s.takers[tid].phase.id], s.takers[tid].phase);
  }

  /** Whoever holds a request can always go on: the reply channel is never full when the reply is sent. */
  lemma ReplyNeverBlocks(s: State, tid: Tid, outcome: Outcome)
    requires Reachable(s) && tid in s.takers && Holds(s.takers[tid])
    ensures TakerStep(s, tid, outcome).Some?
    ensures s.takers[tid].phase.Replying? ==> s.calls[s.takers[tid].phase.id].buffer == []
  {
    ReachableInv(s);
    hide Inv;
    HoldersGoOn(s, tid, outcome);
  }

  /** A synchronous dispatcher whose request is done can receive, and gets what the handler returned. */
  lemma DoneIsReceived(s: State, id: Id, helper: Tid)
    requires Reachable(s) && id in s.done && id in s.calls && s.calls[id].kind.Sync? && !s.calls[id].phase.Answered?
    ensures |s.calls[id].runs| == 1 && DispatcherStep(s, id, helper).Some?
    ensures var t := DispatcherStep(s, id, helper).value;
            id in t.calls && t.calls[id].phase == Answered(s.calls[id].runs[0])
  {
    ReachableInv(s);
    assert Places(s, id) == 1;
    hide Those;
    hide OnePlace;
  }

  /** How many steps a dispatcher has still to take before it has sent or was rejected. */
  function DispatchLeft(c: Call): nat {
    match c.phase
    case Arrived => 8
    case Hot => 7
    case Spawning => 6
    case Joining => 5
    case Counting => 4
    case Sending => 3
    case RollingBack => 2
    case Leaving => 1
    case _ => 0
  }

  /** A dispatch never waits: before the queue is closed, each step of it is possible and brings it nearer to its end. */
  lemma DispatchNeverWaits(s: State, id: Id, helper: Tid)
    requires id in s.calls && DispatchLeft(s.calls[id]) > 0 && !s.closed && helper !in s.takers
    ensures DispatcherStep(s, id, helper).Some?
    ensures var t := DispatcherStep(s, id, helper).value;
            id in t.calls && DispatchLeft(t.calls[id]) < DispatchLeft(s.calls[id])
  {
  }

  /** At most one slow recovery is under way, it never waits for the mutex, and it takes no more than a batch. */
  lemma OneSlowRecovery(s: State, tid: Tid)
    requires Reachable(s) && tid in s.takers && IsRecovering(s.takers[tid])
    ensures s.recovering && s.takers[tid].rounds <= s.config.batch
    ensures forall other | other in s.takers && other != tid :: !IsRecovering(s.takers[other])
    ensures forall id | id in s.calls :: !s.calls[id].phase.Spawning?
    ensures s.takers[tid].phase.Locking? ==> !s.locked
  {
    ReachableInv(s);
    var all := Those(s.takers, IsRecovering);
    assert tid in all;
    SizeWithout(all, tid);
    forall other | other in s.takers && other != tid
      ensures !IsRecovering(s.takers[other])
    {
      assert other !in all - {tid};
    }
    forall id | id in s.calls
      ensures !s.calls[id].phase.Spawning?
    {
      assert id !in Those(s.calls, WillSpawn);
    }
    if s.takers[tid].phase.Locking? && s.locked {
      var owner :| owner in Those(s.takers, HasLock);
      assert IsRecovering(s.takers[owner]);
    }
  }

  /** The pending counter never falls behind the queue, and what it runs ahead is dispatchers between their increment
      and their send or rollback, and goroutines between their receive and their decrement. */
  lemma PendingCounts(s: State)
    requires Reachable(s)
    ensures s.pending == |s.queue| + |Those(s.calls, CountsPending)| + |Those(s.takers, HasCounted)|
    ensures |s.queue| <= s.config.capacity
  {
    ReachableInv(s);
  }

  /** When the wait group is at zero every request that was accepted is done, and the queue and pending are empty. */
  lemma GroupEmptyMeansDone(s: State)
    requires Reachable(s)
    ensures s.wg >= 0
    ensures s.wg == 0 ==> s.queue == [] && s.pending == 0
    ensures s.wg == 0 ==> forall id | id in s.calls && WasAccepted(s.calls[id]) :: id in s.done && Handled(s.calls[id])
  {
    ReachableInv(s);
    if s.wg == 0 {
      assert Those(s.calls, CountsPending) <= Those(s.calls, CountsInGroup) == {};
      assert Those(s.takers, HasCounted) <= Those(s.takers, Holds) == {};
      forall id | id in s.calls && WasAccepted(s.calls[id])
        ensures id in s.done
      {
        assert Places(s, id) == 1;
        assert Holders(s, id) <= Those(s.takers, Holds);
      }
    }
  }

  /** When a request's send is decided, it is accepted exactly if the queue has room at that moment. */
  lemma RejectedExactlyWhenFull(s: State, t: State, e: Event, id: Id)
    requires Reachable(s) && Step(s, e) == Some(t)
    requires id in s.calls && s.calls[id].phase.Sending? && id in t.calls && !t.calls[id].phase.Sending?
    ensures t.calls[id].phase.Accepted? <==> |s.queue| < s.config.capacity
    ensures t.calls[id].phase.Accepted? || t.calls[id].phase.RollingBack?
  {
    ReachableInv(s);
    match e
    case Dispatcher(sender, helper) =>
      DispatcherDoes(s, t, sender, helper);
    case Take(tid, outcome) =>
      TakerDoes(s, t, tid, outcome);
    case _ =>
  }

  /** The request that a step puts into the queue: its dispatcher's send was accepted. */
  function SentBy(s: State, t: State, e: Event): seq<Id> {
    if e.Dispatcher? && e.id in s.calls && e.id in t.calls && s.calls[e.id].phase.Sending? && t.calls[e.id].phase.Accepted?
    then [e.id]
    else []
  }

  /** The request that a step takes: a goroutine that was ready holds it now. */
  function TakenBy(s: State, t: State, e: Event): seq<Id> {
    if e.Take? && e.tid in s.takers && e.tid in t.takers && s.takers[e.tid].phase.Ready? && t.takers[e.tid].phase.Took?
    then [t.takers[e.tid].phase.id]
    else []
  }

  /** The requests that a run accepts, in the order in which they were sent. */
  function SentOver(s: State, events: seq<Event>): seq<Id>
    decreases |events|
  {
    if events == [] || Step(s, events[0]).None? then []
    else
      var next := Step(s, events[0]).value;
      SentBy(s, next, events[0]) + SentOver(next, events[1..])
  }

  /** The requests that a run's workers and slow recoveries receive, in the order in which they received them. */
  function TakenOver(s: State, events: seq<Event>): seq<Id>
    decreases |events|
  {
    if events == [] || Step(s, events[0]).None? then []
    else
      var next := Step(s, events[0]).value;
      TakenBy(s, next, events[0]) + TakenOver(next, events[1..])
  }

  lemma StepQueue(s: State, t: State, e: Event)
    requires OneRecovery(s) && Step(s, e) == Some(t)
    ensures s.queue + SentBy(s, t, e) == TakenBy(s, t, e) + t.queue
  {
    hide DispatcherStep;
    hide TakerStep;
    match e
    case Dispatcher(id, helper) => DispatcherDoes(s, t, id, helper);
    case Take(tid, outcome) => TakerDoes(s, t, tid, outcome);
    case _ =>
  }

  /** First in, first out: over any run, what stood in the queue and what was sent, in this order, is what was taken
      and what stands in the queue now. Nothing is lost, added or overtaken. */
  lemma {:induction false} QueueIsFifo(s: State, t: State, events: seq<Event>)
    requires Inv(s) && Run(s, events) == Some(t)
    ensures s.queue + SentOver(s, events) == TakenOver(s, events) + t.queue
    decreases |events|
  {
    hide Step;
    hide SentBy;
    hide TakenBy;
    hide CountersAgree;
    hide OneRecovery;
    hide OnePlace;
    hide Progress;
    hide WorkersStay;
    if events != [] {
      var next := Step(s, events[0]).value;
      StepQueue(s, next, events[0]);
      StepKeepsInv(s, next, events[0]);
      QueueIsFifo(next, t, events[1..]);
      Exchange(s.queue, SentBy(s, next, events[0]), SentOver(next, events[1..]),
               TakenBy(s, next, events[0]), TakenOver(next, events[1..]), next.queue, t.queue);
    }
  }

  lemma Exchange(first: seq<Id>, sent: seq<Id>, later: seq<Id>, taken: seq<Id>, rest: seq<Id>,
                 middle: seq<Id>, last: seq<Id>)
    requires first + sent == taken + middle && middle + later == rest + last
    ensures first + (sent + later) == taken + rest + last
  {
    assert first + (sent + later) == (first + sent) + later;
    assert (taken + middle) + later == taken + (middle + later);
    assert taken + (rest + last) == taken + rest + last;
  }

  /** In no state of the run does pending exceed the threshold. */
  ghost predicate StaysLight(s: State, events: seq<Event>)
    decreases |events|
  {
    && s.pending as real <= s.config.threshold * s.config.capacity as real
    && (events == [] || Step(s, events[0]).None? || StaysLight(Step(s, events[0]).value, events[1..]))
  }

  /** Nobody is about to start a slow recovery. */
  ghost predicate Calm(s: State) {
    !s.recovering && forall id | id in s.calls :: !s.calls[id].phase.Hot? && !s.calls[id].phase.Spawning?
  }

  lemma LightIsNotHot(pending: int, capacity: int, threshold: real)
    requires capacity > 0 && pending as real <= threshold * capacity as real
    ensures !(pending as real / capacity as real > threshold)
  {
    var utilization := pending as real / capacity as real;
    assert utilization * capacity as real == pending as real;
    if utilization > threshold {
      assert (utilization - threshold) * capacity as real > 0.0;
    }
  }

  lemma StepStaysCalm(s: State, t: State, e: Event)
    requires OneRecovery(s) && Calm(s) && Step(s, e) == Some(t)
    requires s.pending as real <= s.config.threshold * s.config.capacity as real
    ensures Calm(t)
  {
    LightIsNotHot(s.pending, s.config.capacity, s.config.threshold);
    match e
    case Dispatcher(id, helper) =>
      DispatcherDoes(s, t, id, helper);
      assert !t.calls[id].phase.Hot? && !t.calls[id].phase.Spawning?;
    case Take(tid, outcome) => TakerDoes(s, t, tid, outcome);
    case _ =>
  }

  /** A run in which pending stays within the threshold never starts a slow recovery. */
  lemma {:induction false} LightRunsDoNotRecover(s: State, t: State, events: seq<Event>)
    requires Inv(s) && Calm(s) && Run(s, events) == Some(t) && StaysLight(s, events)
    ensures Calm(t) && forall tid | tid in t.takers :: !IsRecovering(t.takers[tid])
    decreases |events|
  {
    hide Step;
    hide Calm;
    hide CountersAgree;
    hide OneRecovery;
    hide OnePlace;
    hide Progress;
    hide WorkersStay;
    if events == [] {
      CalmHasNoRecovery(t);
    } else {
      var next := Step(s, events[0]).value;
      StepStaysCalm(s, next, events[0]);
      StepKeepsInv(s, next, events[0]);
      LightRunsDoNotRecover(next, t, events[1..]);
    }
  }

  lemma CalmHasNoRecovery(s: State)
    requires OneRecovery(s) && Calm(s)
    ensures forall tid | tid in s.takers :: !IsRecovering(s.takers[tid])
  {
    forall tid | tid in s.takers
      ensures !IsRecovering(s.takers[tid])
    {
      assert tid !in Those(s.takers, IsRecovering);
    }
  }

  /** Three steps of a dispatcher. */
  function Thrice(id: Id, helper: Tid): seq<Event> {
    [Dispatcher(id, helper), Dispatcher(id, helper), Dispatcher(id, helper)]
  }

  /** A dispatcher that finds pending above the threshold, and no slow recovery under way, starts one. */
  lemma OverloadStartsRecovery(s: State, id: Id, helper: Tid)
    requires id in s.calls && s.calls[id].phase.Arrived? && helper !in s.takers && !s.recovering
    requires s.pending as real > s.config.threshold * s.config.capacity as real
    ensures Run(s, Thrice(id, helper)).Some?
    ensures var t := Run(s, Thrice(id, helper)).value;
            && t.recovering && helper in t.takers && t.takers[helper] == Taker(true, 0, Locking) && t.queue == s.queue
            && id in t.calls && t.calls[id].phase.Joining?
  {
    var s1 := s.(calls := At(s, id, Hot));
    LoadIsSeen(s, id, helper);
    var s2 := s1.(calls := At(s1, id, Spawning), recovering := true);
    var s3 := s2.(calls := At(s2, id, Joining), takers := s2.takers[helper := Taker(true, 0, Locking)]);
    var e := Dispatcher(id, helper);
    assert Step(s, e) == Some(s1);
    assert Step(s1, e) == Some(s2);
    assert Step(s2, e) == Some(s3);
    hide Step;
    ThreeSteps(s, e, s1, s2, s3);
  }

  lemma ThreeSteps(s: State, e: Event, s1: State, s2: State, s3: State)
    requires Step(s, e) == Some(s1) && Step(s1, e) == Some(s2) && Step(s2, e) == Some(s3)
    ensures Run(s, [e, e, e]) == Some(s3)
  {
    hide Step;
    assert [e, e, e][1..] == [e, e] && [e, e][1..] == [e] && [e][1..] == [];
    assert Run(s2, [e]) == Some(s3);
    assert Run(s1, [e, e]) == Run(s2, [e]);
  }

  /** What a dispatcher makes of the load it sees: it goes for a slow recovery exactly above the threshold. */
  lemma LoadIsSeen(s: State, id: Id, helper: Tid)
    requires id in s.calls && s.calls[id].phase.Arrived?
    ensures DispatcherStep(s, id, helper).Some?
    ensures var t := DispatcherStep(s, id, helper).value;
            && t == s.(calls := t.calls)
            && t.calls == At(s, id, if s.pending as real > s.config.threshold * s.config.capacity as real then Hot else Joining)
  {
    var utilization := s.pending as real / s.config.capacity as real;
    assert utilization * s.config.capacity as real == s.pending as real;
    if s.pending as real > s.config.threshold * s.config.capacity as real {
      LoadIsHot(s.pending, s.config.capacity, s.config.threshold);
    } else {
      LightIsNotHot(s.pending, s.config.capacity, s.config.threshold);
    }
  }

  lemma LoadIsHot(pending: int, capacity: int, threshold: real)
    requires capacity > 0 && pending as real > threshold * capacity as real
    ensures pending as real / capacity as real > threshold
  {
    var utilization := pending as real / capacity as real;
    assert utilization * capacity as real == pending as real;
    if utilization <= threshold {
      ProductGrows(utilization, threshold, capacity as real);
    }
  }

  lemma ProductGrows(a: real, b: real, c: real)
    requires a <= b && c >= 0.0
    ensures a * c <= b * c
  {
    assert (b - a) * c >= 0.0;
  }

  /** Of dispatchers that saw too much load, each leaves a slow recovery under way, and one of them starts it. */
  lemma HotLeavesRecovery(s: State, t: State, id: Id, helper: Tid)
    requires id in s.calls && s.calls[id].phase.Hot? && DispatcherStep(s, id, helper) == Some(t)
    ensures t.recovering && id in t.calls
    ensures t.calls[id].phase.Spawning? <==> !s.recovering
    ensures t.calls[id].phase.Joining? <==> s.recovering
  {
  }

  /** Whoever is ready receives the first request exactly if there is one, and, in a slow recovery, the batch is not used
      up; a slow recovery gives up exactly otherwise. */
  lemma ReadyTakes(s: State, tid: Tid, outcome: Outcome)
    requires tid in s.takers && s.takers[tid].phase.Ready?
    ensures var taker, next := s.takers[tid], TakerStep(s, tid, outcome);
            && (s.queue != [] && (taker.helper ==> taker.rounds < s.config.batch) ==>
                  && next.Some? && tid in next.value.takers && next.value.queue == s.queue[1..]
                  && next.value.takers[tid] == Taker(taker.helper, taker.rounds + 1, Took(s.queue[0])))
            && (taker.helper && (s.queue == [] || taker.rounds >= s.config.batch) ==>
                  next.Some? && tid in next.value.takers && next.value.takers[tid].phase.Unlocking?)
  {
  }

  // A slow recovery, left to itself, handles a batch.

  /** The goroutine has done these with nobody else taking a step. */
  ghost predicate Handles(s: State, t: State, tid: Tid, n: nat) {
    && n <= |s.queue| && t.queue == s.queue[n..] && t.config == s.config
    && tid in s.takers && tid in t.takers && s.takers[tid].helper
    && t.takers[tid] == Taker(true, s.takers[tid].rounds + n, Ready)
    && forall id | id in s.queue[..n] || id in s.done :: id in t.done
  }

  /** Five steps: receive, count down, run the handler, reply, leave the wait group. */
  lemma HandlesOne(s: State, tid: Tid, outcome: Outcome) returns (t: State)
    requires Inv(s) && tid in s.takers && s.takers[tid].helper && s.takers[tid].phase.Ready?
    requires s.queue != [] && s.takers[tid].rounds < s.config.batch
    ensures var e := Take(tid, outcome); Run(s, [e, e, e, e, e]) == Some(t)
    ensures Inv(t) && Handles(s, t, tid, 1)
  {
    hide Inv;
    hide TakerStep;
    hide Run;
    var e, id := Take(tid, outcome), s.queue[0];
    ReadyTakes(s, tid, outcome);
    var s1 := TakerStep(s, tid, outcome).value;
    TakerKeepsInv(s, s1, tid, outcome);
    TakerSteps(s, s1, tid, outcome);
    var s2 := HolderSteps(s1, tid, outcome);
    var s3 := HolderSteps(s2, tid, outcome);
    var s4 := HolderSteps(s3, tid, outcome);
    t := HolderSteps(s4, tid, outcome);
    FiveSteps(s, e, s1, s2, s3, s4, t);
  }

  lemma TakerSteps(s: State, t: State, tid: Tid, outcome: Outcome)
    requires tid in s.takers && TakerStep(s, tid, outcome) == Some(t) && s.takers[tid].phase.Ready?
    ensures t.config == s.config && t.done == s.done
  {
  }

  /** How a goroutine goes on with the request it holds; after the last step the request is done. */
  ghost predicate GoesOn(s: State, t: State, tid: Tid, outcome: Outcome)
    requires tid in s.takers
  {
    && t.queue == s.queue && t.config == s.config && tid in t.takers
    && var before, after := s.takers[tid], t.takers[tid];
       && after.helper == before.helper && after.rounds == before.rounds
       && match before.phase
          case Took(id) => after.phase == Working(id) && t.done == s.done
          case Working(id) => after.phase == Replying(id, outcome) && t.done == s.done
          case Replying(id, _) => after.phase == Finishing(id) && t.done == s.done
          case Finishing(id) => after.phase == Ready && t.done == s.done + {id}
          case _ => false
  }

  lemma CountDownGoesOn(s: State, t: State, tid: Tid, outcome: Outcome)
    requires tid in s.takers && Holds(s.takers[tid]) && CountDown(s, tid) == Some(t)
    ensures GoesOn(s, t, tid, outcome)
  {
  }

  lemma ServeGoesOn(s: State, t: State, tid: Tid, outcome: Outcome)
    requires tid in s.takers && Holds(s.takers[tid]) && Serve(s, tid, outcome) == Some(t)
    ensures GoesOn(s, t, tid, outcome)
  {
  }

  lemma HolderSteps(s: State, tid: Tid, outcome: Outcome) returns (t: State)
    requires Inv(s) && tid in s.takers && Holds(s.takers[tid])
    ensures TakerStep(s, tid, outcome) == Some(t) && Inv(t) && GoesOn(s, t, tid, outcome)
  {
    HoldersGoOn(s, tid, outcome);
    t := TakerStep(s, tid, outcome).value;
    TakerKeepsInv(s, t, tid, outcome);
    hide Inv;
    hide Serve;
    hide CountDown;
    hide GoesOn;
    var phase := s.takers[tid].phase;
    if phase.Working? || phase.Replying? {
      ServeGoesOn(s, t, tid, outcome);
    } else {
      CountDownGoesOn(s, t, tid, outcome);
    }
  }

  lemma FiveSteps(s: State, e: Event, s1: State, s2: State, s3: State, s4: State, s5: State)
    requires Step(s, e) == Some(s1) && Step(s1, e) == Some(s2) && Step(s2, e) == Some(s3)
    requires Step(s3, e) == Some(s4) && Step(s4, e) == Some(s5)
    ensures Run(s, [e, e, e, e, e]) == Some(s5)
  {
    hide Step;
    assert [e, e, e, e, e][1..] == [e, e, e, e] && [e, e, e, e][1..] == [e, e, e];
    ThreeSteps(s2, e, s3, s4, s5);
    assert Run(s1, [e, e, e, e]) == Run(s2, [e, e, e]);
  }

  /** A slow recovery that is left to itself handles as many requests as its batch allows and the queue holds. */
  lemma {:induction false} RecoveryHandlesBatch(s: State, tid: Tid, outcome: Outcome, n: nat)
    returns (events: seq<Event>, t: State)
    requires Inv(s) && tid in s.takers && s.takers[tid].helper && s.takers[tid].phase.Ready?
    requires n <= |s.queue| && s.takers[tid].rounds + n <= s.config.batch
    ensures (forall e | e in events :: e == Take(tid, outcome)) && Run(s, events) == Some(t)
    ensures Inv(t) && Handles(s, t, tid, n)
    decreases n
  {
    hide Inv;
    hide Run;
    if n == 0 {
      events, t := [], s;
      RunNothing(s);
    } else {
      var e := Take(tid, outcome);
      var s1 := HandlesOne(s, tid, outcome);
      var rest;
      rest, t := RecoveryHandlesBatch(s1, tid, outcome, n - 1);
      events := [e, e, e, e, e] + rest;
      RunAppends(s, [e, e, e, e, e], s1, rest);
      assert s.queue[..n] == [s.queue[0]] + s1.queue[..n - 1];
    }
  }

  /** A slow recovery that has just been started finds the mutex free. */
  lemma LockIsFree(s: State, tid: Tid)
    requires OneRecovery(s) && tid in s.takers && s.takers[tid].helper && s.takers[tid].phase.Locking?
    ensures !s.locked
  {
    var all := Those(s.takers, IsRecovering);
    assert tid in all;
    SizeWithout(all, tid);
    assert all - {tid} == {};
    var owners := Those(s.takers, HasLock);
    assert owners <= all - {tid} by {
      forall owner | owner in owners
        ensures owner in all - {tid}
      {
      }
    }
  }

  lemma Locks(s: State, tid: Tid, outcome: Outcome) returns (t: State)
    requires Inv(s) && tid in s.takers && s.takers[tid].helper && s.takers[tid].phase.Locking?
    ensures Run(s, [Take(tid, outcome)]) == Some(t) && Inv(t)
    ensures t == s.(takers := t.takers, locked := true) && t.takers == s.takers[tid := s.takers[tid].(phase := Ready)]
  {
    LockIsFree(s, tid);
    t := s.(takers := Doing(s, tid, Ready), locked := true);
    assert TakerStep(s, tid, outcome) == Some(t);
    TakerKeepsInv(s, t, tid, outcome);
    assert [Take(tid, outcome)][1..] == [];
  }

  /** Three steps: give up, release the mutex, clear the flag. */
  lemma Leaves(s: State, tid: Tid, outcome: Outcome) returns (t: State)
    requires tid in s.takers && s.takers[tid].helper && s.takers[tid].phase.Ready?
    requires s.queue == [] || s.takers[tid].rounds >= s.config.batch
    ensures var e := Take(tid, outcome); Run(s, [e, e, e]) == Some(t)
    ensures t.queue == s.queue && t.done == s.done && !t.recovering && !t.locked
    ensures tid in t.takers && t.takers[tid].phase.Exited?
  {
    var e := Take(tid, outcome);
    var s1 := s.(takers := Doing(s, tid, Unlocking));
    var s2 := s1.(takers := Doing(s1, tid, Clearing), locked := false);
    t := s2.(takers := Doing(s2, tid, Exited), recovering := false);
    assert Step(s, e) == Some(s1);
    assert Step(s1, e) == Some(s2);
    assert Step(s2, e) == Some(t);
    hide Step;
    ThreeSteps(s, e, s1, s2, t);
  }

  /** A slow recovery that has just been started, left to itself, handles a batch, or all there is, and ends. */
  lemma RecoveryRuns(s: State, tid: Tid, outcome: Outcome) returns (events: seq<Event>, t: State)
    requires Inv(s) && tid in s.takers && s.takers[tid] == Taker(true, 0, Locking)
    ensures (forall e | e in events :: e == Take(tid, outcome)) && Run(s, events) == Some(t)
    ensures Relieves(s, t, tid)
  {
    hide *;
    var e := Take(tid, outcome);
    var s1 := Locks(s, tid, outcome);
    var n := if |s.queue| < s.config.batch then |s.queue| else s.config.batch;
    assert s1.takers[tid] == Taker(true, 0, Ready) && s1.queue == s.queue && s1.config == s.config;
    var steps, s2 := RecoveryHandlesBatch(s1, tid, outcome, n);
    HandledAll(s1, s2, tid, n);
    t := Leaves(s2, tid, outcome);
    events := [e] + steps + [e, e, e];
    RunAppends(s, [e], s1, steps);
    RunAppends(s, [e] + steps, s2, [e, e, e]);
    Relieved(s, s2, t, tid, n);
  }

  lemma HandledAll(s: State, t: State, tid: Tid, n: nat)
    requires Handles(s, t, tid, n) && (n == |s.queue| || s.takers[tid].rounds + n == s.config.batch)
    ensures t.queue == s.queue[n..] && t.config == s.config && forall id | id in s.queue[..n] :: id in t.done
    ensures tid in t.takers && t.takers[tid].helper && t.takers[tid].phase.Ready?
    ensures t.queue == [] || t.takers[tid].rounds >= t.config.batch
  {
  }

  lemma Relieved(s: State, s2: State, t: State, tid: Tid, n: nat)
    requires n == if |s.queue| < s.config.batch then |s.queue| else s.config.batch
    requires s2.queue == s.queue[n..] && forall id | id in s.queue[..n] :: id in s2.done
    requires t.queue == s2.queue && t.done == s2.done && !t.recovering && !t.locked
    requires tid in t.takers && t.takers[tid].phase.Exited?
    ensures Relieves(s, t, tid)
  {
  }

  /** A batch, or all there is, was taken from the queue and handled, and the slow recovery is over. */
  ghost predicate Relieves(s: State, t: State, tid: Tid) {
    var n := if |s.queue| < s.config.batch then |s.queue| else s.config.batch;
    && t.queue == s.queue[n..] && (forall id | id in s.queue[..n] :: id in t.done)
    && !t.recovering && !t.locked && tid in t.takers && t.takers[tid].phase.Exited?
  }

  /** Overload is relieved: a dispatcher that finds pending above the threshold, and no slow recovery under way, starts
      one, and that, left to itself, handles a batch, or all there is, and ends. */
  lemma OverloadIsRelieved(s: State, id: Id, helper: Tid, outcome: Outcome) returns (events: seq<Event>, t: State)
    requires Inv(s) && id in s.calls && s.calls[id].phase.Arrived? && helper !in s.takers && !s.recovering
    requires s.pending as real > s.config.threshold * s.config.capacity as real
    ensures forall e | e in events :: e == Dispatcher(id, helper) || e == Take(helper, outcome)
    ensures Run(s, events) == Some(t) && Relieves(s, t, helper)
  {
    var start := Thrice(id, helper);
    assert forall e | e in start :: e == Dispatcher(id, helper);
    hide *;
    OverloadStartsRecovery(s, id, helper);
    var s1 := Run(s, start).value;
    RunKeepsInv(s, s1, start);
    var rest;
    rest, t := RecoveryRuns(s1, helper, outcome);
    RunAppends(s, start, s1, rest);
    events := start + rest;
    SameRelief(s, s1, t, helper);
  }

  lemma SameRelief(s: State, s1: State, t: State, tid: Tid)
    requires s1.queue == s.queue && s1.config == s.config && Relieves(s1, t, tid)
    ensures Relieves(s, t, tid)
  {
  }

  lemma RunNothing(s: State)
    ensures Run(s, []) == Some(s)
  {
  }

  // ---------------------------------------------------------------- draining after Close

  /** The queue is closed and no dispatch is in flight. */
  ghost predicate Draining(s: State) {
    && s.closed
    && forall id | id in s.calls :: var p := s.calls[id].phase; p.Accepted? || p.Answered? || p.Rejected?
  }

  ghost predicate HasWorker(s: State) {
    exists tid :: tid in s.takers && !s.takers[tid].helper
  }

  /** No dispatch begins and no worker is started. */
  predicate IsDrainEvent(e: Event) {
    e.Take? || e.Dispatcher?
  }

  ghost function Total<K, V>(m: map<K, V>, f: V -> nat): nat
    decreases |m|
  {
    if m == map[] then 0
    else
      var k :| k in m;
      f(m[k]) + Total(m - {k}, f)
  }

  lemma {:induction false} TotalWithout<K, V>(m: map<K, V>, k: K, f: V -> nat)
    requires k in m
    ensures Total(m, f) == f(m[k]) + Total(m - {k}, f)
    decreases |m|
  {
    var j :| j in m && Total(m, f) == f(m[j]) + Total(m - {j}, f);
    if j != k {
      TotalWithout(m - {j}, k, f);
      TotalWithout(m - {k}, j, f);
      assert m - {j} - {k} == m - {k} - {j};
    }
  }

  lemma TotalAfter<K, V>(m: map<K, V>, k: K, v: V, f: V -> nat)
    requires k in m
    ensures Total(m[k := v], f) + f(m[k]) == Total(m, f) + f(v)
  {
    TotalWithout(m, k, f);
    TotalWithout(m[k := v], k, f);
    assert m[k := v] - {k} == m - {k};
  }

  /** How many steps a goroutine has still to take, apart from requests it has not received. */
  function StepsLeft(t: Taker): nat {
    match t.phase
    case Took(_) => 7
    case Working(_) => 6
    case Replying(_, _) => 5
    case Finishing(_) => 4
    case Locking => 4
    case Ready => 3
    case Unlocking => 2
    case Clearing => 1
    case Exited => 0
  }

  function Unanswered(c: Call): nat {
    if c.phase.Accepted? then 1 else 0
  }

  ghost function Effort(s: State): nat {
    5 * |s.queue| + Total(s.takers, StepsLeft) + Total(s.calls, Unanswered)
  }

  lemma TakerSpends(s: State, t: State, tid: Tid, outcome: Outcome)
    requires OneRecovery(s) && tid in s.takers && TakerStep(s, tid, outcome) == Some(t)
    ensures TakerMoves(s, t, tid)
    ensures 5 * |t.queue| + StepsLeft(t.takers[tid]) < 5 * |s.queue| + StepsLeft(s.takers[tid])
  {
    TakerDoes(s, t, tid, outcome);
    var before, after := s.takers[tid], t.takers[tid];
    assert before.phase.Ready? ==> after.phase.Took? || after.phase.Unlocking? || after.phase.Exited?;
    assert before.phase.Locking? ==> after.phase.Ready?;
    assert before.phase.Unlocking? ==> after.phase.Clearing?;
    assert before.phase.Clearing? ==> after.phase.Exited?;
    assert before.phase.Finishing? ==> after.phase.Ready?;
  }

  lemma DrainTake(s: State, t: State, tid: Tid, outcome: Outcome)
    requires OneRecovery(s) && Draining(s) && tid in s.takers && TakerStep(s, tid, outcome) == Some(t)
    ensures Draining(t) && (HasWorker(s) ==> HasWorker(t)) && Effort(t) < Effort(s)
  {
    TakerSpends(s, t, tid, outcome);
    hide TakerStep;
    hide OneRecovery;
    TotalAfter(s.takers, tid, t.takers[tid], StepsLeft);
    var phase := s.takers[tid].phase;
    if phase.Working? || phase.Replying? {
      TotalAfter(s.calls, phase.id, t.calls[phase.id], Unanswered);
    }
    hide Total;
    hide StepsLeft;
    if HasWorker(s) {
      var worker :| worker in s.takers && !s.takers[worker].helper;
      assert worker in t.takers && !t.takers[worker].helper;
    }
  }

  lemma DrainReceive(s: State, t: State, id: Id, helper: Tid)
    requires Draining(s) && id in s.calls && DispatcherStep(s, id, helper) == Some(t)
    ensures Draining(t) && t.takers == s.takers && Effort(t) < Effort(s)
  {
    assert Receive(s, id) == Some(t);
    assert t.calls == s.calls[id := s.calls[id].Received()];
    hide DispatcherStep;
    TotalAfter(s.calls, id, t.calls[id], Unanswered);
    hide Total;
  }

  lemma DrainStep(s: State, t: State, e: Event)
    requires Inv(s) && Draining(s) && IsDrainEvent(e) && Step(s, e) == Some(t)
    ensures Draining(t) && (HasWorker(s) ==> HasWorker(t)) && Effort(t) < Effort(s)
  {
    hide TakerStep;
    hide DispatcherStep;
    hide Draining;
    hide Effort;
    match e
    case Take(tid, outcome) => DrainTake(s, t, tid, outcome);
    case Dispatcher(id, helper) => DrainReceive(s, t, id, helper);
  }

  /** While a request is not done, some worker or slow recovery can take a step. */
  lemma DrainGoesOn(s: State, outcome: Outcome) returns (tid: Tid)
    requires Reachable(s) && Draining(s) && HasWorker(s) && s.wg != 0
    ensures tid in s.takers && TakerStep(s, tid, outcome).Some?
  {
    ReachableInv(s);
    assert Those(s.calls, CountsInGroup) == {};
    if Those(s.takers, Holds) != {} {
      tid :| tid in Those(s.takers, Holds);
      ReplyNeverBlocks(s, tid, outcome);
    } else {
      tid :| tid in s.takers && !s.takers[tid].helper;
      assert tid !in Those(s.takers, Holds);
      assert s.queue != [];
    }
  }

  /** After Close, with no dispatch in flight, every run of the goroutines ends after a bounded number of steps, and
      where none of them can go on the wait group is at zero and every accepted request is done. */
  lemma {:induction false} CloseDrains(s: State, t: State, events: seq<Event>, before: seq<Event>, outcome: Outcome)
    requires Run(Init(s.config), before) == Some(s) && Draining(s) && HasWorker(s)
    requires (forall e | e in events :: IsDrainEvent(e)) && Run(s, events) == Some(t)
    ensures |events| <= Effort(s)
    ensures (forall tid | tid in t.takers :: TakerStep(t, tid, outcome).None?) ==>
              t.wg == 0 && forall id | id in t.calls && WasAccepted(t.calls[id]) :: id in t.done && Handled(t.calls[id])
    decreases |events|
  {
    ReachableInv(s);
    hide Inv;
    hide Draining;
    hide HasWorker;
    hide Effort;
    hide TakerStep;
    hide Step;
    if events == [] {
      GroupEmptyMeansDone(t);
      if t.wg != 0 {
        var tid := DrainGoesOn(t, outcome);
      }
    } else {
      var next := Step(s, events[0]).value;
      assert events[0] in events && forall e | e in events[1..] :: e in events;
      DrainStep(s, next, events[0]);
      StepKeepsInv(s, next, events[0]);
      RunAppends(Init(s.config), before, s, [events[0]]);
      CloseDrains(next, t, events[1..], before + [events[0]], outcome);
    }
  }

  lemma {:induction false} RunAppends(s: State, first: seq<Event>, t: State, second: seq<Event>)
    requires Run(s, first) == Some(t)
    ensures Run(s, first + second) == Run(t, second)
    decreases |first|
  {
    if first == [] {
      assert first + second == second;
    } else {
      assert (first + second)[1..] == first[1..] + second;
      RunAppends(Step(s, first[0]).value, first[1..], t, second);
    }
  }
}
