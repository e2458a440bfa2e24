# Verification of the NexusGate core

NexusGate is an HTTP gateway. This project models the eight parts of it that carry state, loops or arithmetic, and
proves what they promise, over all inputs and over all runs. `dafny verify dfyconfig.toml` checks everything.

| files | part |
|---|---|
| `Routes.dfy`, `RouteOrder.dfy`, `TrieShape.dfy`, `TrieWalk.dfy`, `RadixTree.dfy`, `Router.dfy` | the route index: a radix trie of mutable nodes, and the router that rebuilds it when it is dirty |
| `WeightedRR.dfy` | smooth weighted round robin |
| `ConsistentHash.dfy` | the cached consistent hash ring |
| `ShardEngine.dfy` | one shard's queue with its dispatchers, workers and slow recovery, as interleaved atomic steps |
| `RateLimiter.dfy`, `EvictionProbe.dfy`, `LimiterBounds.dfy` | token buckets with eviction, the runs on which eviction shows, and what is held in memory |
| `CircuitBreaker.dfy` | the circuit breaker, driven by requests that overlap in time |
| `ChunkedCoding.dfy`, `ChunkGrammar.dfy` | the reader and the writer of the chunked transfer coding, section 7.1 of RFC 9112, and the grammar of what is read |
| `Failover.dfy` | the retry loop over the healthy backends |
| `Wrappers.dfy` | `Option`, and a fact on prefixes |

Code that changes its state step by step is modelled by classes and methods with loops. Each method is proved against
a function or a relation on values, and the theorems are lemmas about these. The shard engine is a state machine,
since its steps interleave.

**Route index.** A trie node is known by the string its path from the root spells. `RouteOrder` says, without any
tree, what the index is: the set of keys and the list of placed routes, and how one insertion changes them (`Grow`).
`RadixTree.Insert` does exactly that to the linked nodes, through every way in which `findOrCreateNode` ends.
A lookup descends one branch without backtracking; it equals a stable sort, by the length of the home node, of the
routes visible on the path. Walking that answer from the back is one linear scan over all routes: the deepest home
wins, then the latest insertion. `articles/nexusgate-04-routing-strategies.md` says that the first match wins; the code
does not do that. A pattern with a final "/" may share the node of the pattern without it, so the longest passing
pattern can lose by one byte (`FinalSlashCanLose`) and by no more (`IndexRefinesScan`). A pattern is kept whole exactly
if the rest of it is not yet a key when it is inserted (`KeptWholeIff`); then the order is exact, and a dropped "/" makes
a lookup of the rest list a route that does not match it (`ExactOrderIff`, `DroppedSlashIsListed`). For routes that test
a prefix only, `LongestWinsIff` says exactly when the longest passing pattern wins for every request. A pattern without a
leading "/" can pass the router's tests and is never found (`FoundExactlyWhenRooted`); the refinement holds for the
others. What the tests let through is stated apart from them, in the fields of rule and request (`Routes.Meets`), and the
contract of `Match` is in those terms. `RemoveRoute` does not set `dirty`. The index is then out of date exactly when it was clean and a route was
removed, and its contract says so; every other operation keeps it in step or brings it back.

**Weighted round robin.** The state after t selections follows a conservation law (`Ledger`) and stays above a floor;
together they give exact fairness over every stretch of W selections from zero, and a bound from any leftover state.
One selector serves all routes, so a list may meet the state that another list left. A backend of weight 0 can then be
picked although no list is shorter than the one before (`SharedSelectorCanPickZeroWeight`). `PicksOnlyWeightedIff` gives,
for any state, the exact condition under which no list makes that happen; while lists do not shrink it is that every
current weight is zero (`GrowingListsPickOnlyWeightedIff`). After a list shrinks even the sum is lost
(`ShrinkingCanPickZeroWeight`).

**Consistent hashing.** The checksum is an arbitrary function of address and index, so all theorems hold for colliding
points, which the last writer owns. The cached ring is that of the current list as long as no address contains a
comma; with commas two lists can share a signature, and a stale ring then chooses addresses outside the list
(`CommasConfuseSignatures`). The fallback for a ring point without
a node is proved unreachable: `Locate` never returns it.

**Shard engine.** A state holds the queue, the counters, the flags, one entry per request with its dispatcher's next
operation, and one entry per worker or slow recovery. One event is one load, add, compare-and-swap, send, receive,
lock or unlock. The invariant is proved for every event, hence for every run of any number of goroutines. Above the
threshold a dispatcher starts a slow recovery, and this, left to itself, handles a batch or all there is and ends
(`OverloadIsRelieved`). After `Close`, with no dispatch in flight, every run ends, and where no goroutine can go on every
accepted request is done.

**Rate limiter.** Tokens and times are real numbers. The evicting limiter answers as one that never forgets, on every
run in which `rate * bucketExpiry >= burst >= 0` at every call. A burst below zero breaks this when it is raised later
(`NegativeBurstLeavesDebt`). `EvictionNeverShowsIff` gives the exact condition for any set of configurations that a run
may change between: none has a burst, or under each a bucket is full again when it expires, however low any of them left
it. `EvictionIsInvisibleIff` is the case of one fixed configuration. The rate bound and the independence of keys follow.
What is kept in memory is bounded in number and in age (`MemoryIsBounded`, `NoBucketIsOld`).

**Circuit breaker.** A bystander counts the requests outstanding, admitted, succeeded and failed. The breaker's own
counters are proved to mean what the bystander sees, although stragglers from an earlier state may report at any time.
Which requests are let through is stated in the same terms (`AnswersFollowHistory`).

**Chunked coding.** `ChunkGrammar` says byte by byte, and without the reader's functions, what a message is: sizes in
digits of either case, with white space, a sign or an extension, then data, and trailers up to an empty line. The decoder
as a function accepts exactly these messages if their data fit (`DecodesExactlyGrammar`), and decoding what the writer wrote gives the bytes back and stops exactly behind it. However
short a message is cut, by a source that breaks or a destination that fails, a reader never takes part of the data for the
whole (`CutMessage`, `CutStream`). The reader, with its hand-grown buffer, is proved equal to that function, with bounds
on what it allocates and copies.

**Failover.** The health of the backends may be another before each retry. The next address is the first one healthy then
and not yet tried, and an address repeats only when there is none. While health does not change the addresses follow a
closed form: the first choice, then every other healthy address once, then the last one again. From it follow how many
distinct backends are reached and when an address can repeat.

## Model

| member | source | states |
|---|---|---|
| RouteOrder.IndexPlacesAll | internal/router/radix.go:26-86 | every route inserted is filed, in order, at the node that spells its pattern or its pattern without one final "/" |
| RouteOrder.DescentSorts | internal/router/radix.go:172-195 | what a descent along a path collects is a stable sort, by depth, of all routes that lie on the path and are shown to it |
| RouteOrder.ExactOrder | internal/router/radix.go:26-84 | when every pattern was kept whole, a lookup gives the matching routes stably sorted by pattern length, root routes counting as length 0 |
| RouteOrder.KeptWholeIff | internal/router/radix.go:59-62 | every pattern is filed whole if and only if none that ends in "/" was inserted when the rest of it was already a key |
| RouteOrder.NoTrailingSlashIsKept | internal/router/radix.go:59-62 | without final "/", but for "/" itself, every pattern is kept whole |
| RouteOrder.ExactOrderIff | internal/router/radix.go:59-84 | without exact patterns that end in "/", every lookup lists exactly the matching routes in the exact order if and only if every pattern was kept whole |
| RouteOrder.DroppedSlashIsListed | internal/router/radix.go:59-62 | a prefix route that lost its "/" is listed by a lookup of the rest, which it does not match |
| RouteOrder.CanonicalVisible | internal/router/radix.go:173-183 | which routes those are: an exact pattern equal to the path, a prefix pattern of it, "/" and regex-only routes |
| RouteOrder.StableSortSorts | internal/router/radix.go:164-195 | the reference sort orders by length and permutes |
| RouteOrder.StableSortIsStable | internal/router/radix.go:164-195 | the reference sort keeps the order of routes of one length |
| RouteOrder.BestIsDeepestThenLatest | internal/router/router.go:236-256 | the linear scan finds an eligible route exactly if there is one, the deepest, and of these the latest inserted |
| RouteOrder.WalkIsLinearScan | internal/router/router.go:236-256 | walking the lookup's answer from the back finds what the linear scan over all placed routes finds |
| RouteOrder.IndexRefinesScan | internal/router/router.go:236-295 | a route is found exactly when some rooted route passes path, method and headers; it passes them, and no passing pattern is longer by more than one byte |
| RouteOrder.IndexIsLongestThenLatest | internal/router/router.go:236-256 | when every pattern was kept whole the longest passing pattern wins, the latest insertion among equals |
| RouteOrder.LongestWinsIff | internal/router/router.go:236-256 | for routes that test a prefix only, the longest passing pattern wins for every request if and only if each pattern that lost its "/", and was followed by the pattern without it, was also kept whole once or inserted again after that |
| RouteOrder.PassingIsVisible | internal/router/router.go:270-285 | a route that passes the router's tests lies on the request's path exactly when its pattern starts with "/" or is empty |
| RouteOrder.FinalSlashCanLose | internal/router/radix.go:59-62 | a run of insertions after which the longest passing pattern, "/a/", loses to a later "/a" |
| RouteOrder.FoundExactlyWhenRooted | internal/router/radix.go:52-54 | a list of one passing route finds it exactly when its pattern starts with "/" or is empty |
| RouteOrder.UnrootedIsLost | internal/router/radix.go:52-54 | the route for the prefix "api" passes the path "api/x" and is not found in a list of its own |
| TrieShape.AppendKeepsShape | internal/router/radix.go:88-95 | a leaf hung below a node where no sibling starts like it keeps labels nonempty, siblings ordered by first byte, and every key reachable |
| TrieShape.SplitKeepsShape | internal/router/radix.go:97-135 | splitting an edge keeps that shape |
| TrieWalk.StopHere | internal/router/radix.go:59-62 | where the walk stops at a node is where the string settles, a final "/" dropped |
| TrieWalk.LeaveNode | internal/router/radix.go:64-67 | when no child starts like the rest, the whole string becomes a key and leaves the tree here |
| TrieWalk.LeaveEdge | internal/router/radix.go:78-82 | when a child shares part of its label, the string becomes a key and leaves the tree inside that edge |
| RadixIndex.AppendKeepsFormed | internal/router/radix.go:88-95 | the linked nodes still form a trie after a leaf was appended and the children were sorted |
| RadixIndex.SplitKeepsFormed | internal/router/radix.go:97-144 | the linked nodes still form a trie after an edge was split and the child replaced |
| RadixIndex.SortByPath | internal/router/radix.go:91-93 | sorting the children gives a permutation of them, first bytes increasing |
| RadixIndex.CommonPrefix | internal/router/radix.go:268-278 | the longest common prefix of two strings |
| RadixIndex.RadixTree.FindChild | internal/router/radix.go:146-162 | the child that shares a first byte and all that it shares, or the fact that there is none |
| RadixIndex.RadixTree.FindOrCreateNode | internal/router/radix.go:47-86 | ends at the node where the string settles, and adds to the keys exactly that and the fork, in place |
| RadixIndex.RadixTree.Insert | internal/router/radix.go:26-45 | the linked tree grows by one insertion exactly as the index on values does |
| RadixIndex.RadixTree.Lookup | internal/router/radix.go:164-195 | gives the stable sort by depth of the inserted routes visible on the path |
| RadixIndex.RadixTree.AllRoutes | internal/router/radix.go:255-266 | gives everything inserted, as a multiset |
| RouteTable.Router.AddRoute | internal/router/router.go:135-140 | appends the route and brings the index in step |
| RouteTable.Router.RemoveRoute | internal/router/router.go:142-151 | removes the first route with the id; an index in step stays so exactly if it was dirty or no route was removed |
| RouteTable.Router.SwapRoutes | internal/router/router.go:153-161 | takes over the other router's routes, and its selectors where it has some, and brings the index in step |
| RouteTable.Router.RebuildTree | internal/router/router.go:163-172 | a dirty tree is replaced by that of the current routes; a clean one stays |
| RouteTable.Router.UpdateBackendHealth | internal/router/router.go:174-184 | sets the health of every backend with the address, in all routes, and of no other |
| RouteTable.Router.UpdateBackends | internal/router/router.go:323-332 | replaces the backends of the first route with the id and of no other |
| RouteTable.Router.Match | internal/router/router.go:236-256 | answers as the linear scan; with the index in step, none only if the request misses path, method or headers of every route that can be found; else a route whose path, methods and headers it meets, at most one byte short of the longest such |
| Routes.PassesIff | internal/router/router.go:258-295 | the tests let a request through exactly if the path is the exact pattern, or else begins with the prefix, or else is accepted by the regular expression, the method is listed unless none is, and each listed header has its value |
| WeightedRoundRobin.WeightedRR.Select | internal/router/weighted_rr.go:19-55 | resizes, raises every weight, picks the first largest and takes the total from it; nothing or the first for an empty or weightless list |
| WeightedRoundRobin.SelectionConservesSum | internal/router/weighted_rr.go:41-52 | a selection keeps the sum of the current weights |
| WeightedRoundRobin.PickIsLargest | internal/router/weighted_rr.go:44-50 | unless leftover debt outweighs the weights, the pick has the largest raised weight, and it is positive |
| WeightedRoundRobin.Ledger | internal/router/weighted_rr.go:41-52 | after t selections a backend's state is its start plus t times its weight less the total for each time it was picked |
| WeightedRoundRobin.StaysAboveFloor | internal/router/weighted_rr.go:41-52 | from a nonnegative sum every current weight stays at least min(start, 1 - W) |
| WeightedRoundRobin.FairnessFromLeftover | internal/router/weighted_rr.go:27-54 | from leftover state the count stays within bounds of t * w / W that only the start state and W fix |
| WeightedRoundRobin.CycleReturnsToZero | internal/router/weighted_rr.go:33-54 | W selections from zero state end in zero state |
| WeightedRoundRobin.ScheduleIsPeriodic | internal/router/weighted_rr.go:33-54 | the schedule from zero state has period W |
| WeightedRoundRobin.ExactFairness | internal/router/weighted_rr.go:33-54 | every W consecutive selections from zero state pick backend i exactly w_i times |
| WeightedRoundRobin.ZeroWeightIsNeverPicked | internal/router/weighted_rr.go:44-50 | from zero state a backend of weight 0 is never picked, not even in an unfinished cycle |
| WeightedRoundRobin.GrowingListsStayBalanced | internal/router/weighted_rr.go:27-31 | while the shared selector sees no shorter list, the sum stays zero and every pick is the largest |
| WeightedRoundRobin.PicksOnlyWeightedIff | internal/router/weighted_rr.go:44-52 | from any state, no list makes the next selection pick a backend of weight 0 if and only if the state is level: later places not behind earlier ones, at most one ahead, and not below -1 |
| WeightedRoundRobin.LevelMeansZero | internal/router/weighted_rr.go:44-52 | among states that add up to zero only the zero state is level |
| WeightedRoundRobin.GrowingListsPickOnlyWeightedIff | internal/router/weighted_rr.go:27-54 | while the shared selector sees no shorter list, the next selection is sure to pick a backend with a weight if and only if every current weight is zero |
| WeightedRoundRobin.SharedSelectorCanPickZeroWeight | internal/router/weighted_rr.go:27-54 | a run over two lists of two backends that picks a backend of weight 0, without any list getting shorter |
| WeightedRoundRobin.ShrinkingCanPickZeroWeight | internal/router/weighted_rr.go:27-31 | a run in which a list shrinks: the sum is no longer zero, and a backend of weight 0 is picked |
| ConsistentHashing.RemovalMovesOnlyItsKeys | internal/router/consistent_hash.go:49-64 | removing one entry changes the choice only of keys that its address owned |
| ConsistentHashing.InsertionMovesOnlyToIt | internal/router/consistent_hash.go:84-102 | inserting one entry anywhere keeps a key's choice or moves the key to the new address |
| ConsistentHashing.OwnerSurvives | internal/router/consistent_hash.go:90-97 | a point another address owns, even a colliding one, keeps its owner |
| ConsistentHashing.ChoiceIsUnique | internal/router/consistent_hash.go:49-64 | a list determines the owner of a key |
| ConsistentHashing.NextPointIsNearest | internal/router/consistent_hash.go:51-57 | the chosen point is the one nearest to the hash going up around a circle, of whatever size |
| ConsistentHashing.OwnerIsLast | internal/router/consistent_hash.go:90-97 | a point belongs to the last entry of the list that has a virtual node there |
| ConsistentHashing.SignatureIsInjective | internal/router/consistent_hash.go:76-82 | lists of addresses without commas with one signature are the same list |
| ConsistentHashing.CommasConfuseSignatures | internal/router/consistent_hash.go:71-82 | two different lists, with commas, that share a signature: with the one cached, every choice for the other is an address outside it, whatever the hash |
| ConsistentHashing.Search | internal/router/consistent_hash.go:51-53 | the first place in a sorted ring at or after the hash |
| ConsistentHashing.ConsistentHash.Rebuild | internal/router/consistent_hash.go:84-104 | the ring is sorted and holds exactly the points of the list, each mapped to the last address that wrote it |
| ConsistentHashing.ConsistentHash.Locate | internal/router/consistent_hash.go:49-64 | the owner of the first point at or after the key's hash, wrapping; the fallback is not reached |
| ConsistentHashing.ConsistentHash.Select | internal/router/consistent_hash.go:26-65 | the choice is that of a ring built from the current list, unless commas give it the cached list's signature; without virtual nodes it reads out of range |
| ShardEngine.StepKeepsInv | internal/gateway/gateway.go:98-184 | every atomic step of every goroutine keeps the invariant on queue, counters, flags, places and replies |
| ShardEngine.RunKeepsInv | internal/gateway/gateway.go:98-213 | so does every run of any number of dispatchers, workers and slow recoveries |
| ShardEngine.ExactlyOnce | internal/gateway/gateway.go:98-160 | an accepted request is in exactly one of queue, one goroutine's hands and done, any other in none; the handler runs at most once, one reply at most is sent, both once when done, and an answered dispatcher got the handler's result |
| ShardEngine.ReplyNeverBlocks | internal/gateway/gateway.go:147-158 | whoever holds a request can take the next step; the reply channel is empty when the reply is sent |
| ShardEngine.OneSlowRecovery | internal/gateway/gateway.go:102-107 | at most one slow recovery is under way, none is about to be started beside it, it never waits for the mutex and takes at most a batch |
| ShardEngine.PendingCounts | internal/gateway/gateway.go:110-116 | pending is the queue's length plus dispatchers between increment and send or rollback plus goroutines between receive and decrement |
| ShardEngine.RejectedExactlyWhenFull | internal/gateway/gateway.go:112-119 | when a send is decided the request is accepted exactly if the queue has room at that moment |
| ShardEngine.QueueIsFifo | internal/gateway/gateway.go:112-148 | over any run what stood in the queue and then what was sent is, in this order, what was taken and then what stands in the queue: nothing is lost, added or overtaken |
| ShardEngine.LightRunsDoNotRecover | internal/gateway/gateway.go:102-107 | a run in which pending never exceeds the threshold starts no slow recovery; `OverloadStartsRecovery` is the other half |
| ShardEngine.LoadIsSeen | internal/gateway/gateway.go:102-103 | a dispatcher goes for a slow recovery exactly if pending exceeds threshold times capacity |
| ShardEngine.HotLeavesRecovery | internal/gateway/gateway.go:103-107 | one that does leaves a recovery under way, and starts it itself exactly if none was |
| ShardEngine.OverloadStartsRecovery | internal/gateway/gateway.go:102-107 | above the threshold, with none under way, three steps of a dispatcher start a slow recovery |
| ShardEngine.ReadyTakes | internal/gateway/gateway.go:147-184 | whoever is ready receives the first request exactly if there is one and, in a slow recovery, the batch is not used up, and a slow recovery gives up exactly otherwise |
| ShardEngine.RecoveryHandlesBatch | internal/gateway/gateway.go:166-184 | a slow recovery left to itself handles the first n requests of the queue, for every n that queue and batch allow |
| ShardEngine.OverloadIsRelieved | internal/gateway/gateway.go:98-184 | from any state above the threshold without a recovery, a dispatcher and the recovery it starts take a batch, or all there is, off the queue, all of it done, and the flag and the mutex are free again |
| ShardEngine.DispatchNeverWaits | internal/gateway/gateway.go:98-120 | before `Close`, a dispatcher that has not sent can always take a step, and each brings it nearer to its end |
| ShardEngine.DoneIsReceived | internal/gateway/gateway.go:133-139 | a synchronous dispatcher whose request is done can receive, and gets what the handler returned |
| ShardEngine.GroupEmptyMeansDone | internal/gateway/gateway.go:194-206 | the wait group is never negative, and at zero every accepted request is done, the queue is empty and pending is zero |
| ShardEngine.CloseDrains | internal/gateway/gateway.go:194-213 | after Close with no dispatch in flight every run is bounded, and where no goroutine can go on the wait group is at zero and every accepted request done |
| ShardEngine.DrainGoesOn | internal/gateway/gateway.go:147-184 | while the wait group is not at zero some worker or slow recovery can take a step |
| RateLimiting.RateLimiter.Allow | internal/middleware/ratelimit.go:66-102 | one call does to buckets, clock and answer what the limiter on values does |
| RateLimiting.RateLimiter.Cleanup | internal/middleware/ratelimit.go:104-110 | deletes exactly the buckets not called for longer than the expiry |
| RateLimiting.EvictionIsInvisible | internal/middleware/ratelimit.go:66-110 | over every run a limiter that evicts answers every call as one that never deletes a bucket |
| RateLimiting.EvictionIsInvisibleWithin | internal/middleware/ratelimit.go:66-110 | the same for every set of configurations under which a bucket is full again when it expires, however low any of them left it |
| EvictionProbing.EvictionNeverShowsIff | internal/middleware/ratelimit.go:72-110 | for any set of configurations that runs may change between, eviction never shows if and only if none has a burst or they are such a set |
| EvictionProbing.DriftShows | internal/middleware/ratelimit.go:72-101 | even a configuration without a burst can let the limiters drift apart, and one with a burst then tells them apart |
| EvictionProbing.EvictionIsInvisibleIff | internal/middleware/ratelimit.go:72-87 | for any fixed configuration that holds on all runs if and only if there is no burst or rate times expiry is at least the burst |
| EvictionProbing.NegativeBurstLeavesDebt | internal/middleware/ratelimit.go:79-94 | a run with a negative burst that is raised later: eviction shows, although rate times expiry is at least the burst at every call |
| RateLimiting.OtherKeysDoNotMatter | internal/middleware/ratelimit.go:77-87 | a key's answers do not depend on calls for other keys |
| RateLimiting.RateBound | internal/middleware/ratelimit.go:89-101 | after any run, a stretch of calls from s to e accepts for a key at most burst plus rate times e - s |
| RateLimiting.PatienceIsRewarded | internal/middleware/ratelimit.go:89-101 | after any run, a call at least 1/rate after the key's previous one is accepted |
| LimiterBounds.QuietKeySpendsBurst | internal/middleware/ratelimit.go:77-101 | after any run, a key never called, or not for the time a burst takes to flow in, has its next calls accepted, as many as the burst, whatever other keys do |
| LimiterBounds.MemoryIsBounded | internal/middleware/ratelimit.go:72-87 | after any run there are no more buckets than the limit, or than the most keys called within one expiry time |
| LimiterBounds.NoBucketIsOld | internal/middleware/ratelimit.go:72-75 | after any run no bucket was last used longer ago than the expiry and one cleanup interval |
| CircuitBreaking.CircuitBreaker.Allow | internal/middleware/circuitbreaker.go:64-88 | the new state is that of the function on values; the answer is yes in Closed, in Open exactly past the timeout, in half-open exactly below T active |
| CircuitBreaking.CircuitBreaker.RecordFailure | internal/middleware/circuitbreaker.go:90-109 | the same for a recorded failure |
| CircuitBreaking.CircuitBreaker.RecordSuccess | internal/middleware/circuitbreaker.go:111-130 | the same for a recorded success |
| CircuitBreaking.CircuitBreaker.Report | internal/middleware/circuitbreaker.go:50-57 | an error or an answer from 500 up is recorded as a failure, any other answer as a success |
| CircuitBreaking.RunKeepsInv | internal/middleware/circuitbreaker.go:39-146 | in every run of overlapping requests the counters mean what a bystander sees |
| CircuitBreaking.HalfOpenIsBounded | internal/middleware/circuitbreaker.go:72-84 | one half-open period admits at most 2T - 1 requests and counts no more as active than are outstanding |
| CircuitBreaking.HalfOpenEnds | internal/middleware/circuitbreaker.go:90-130 | once T requests have reported, the half-open period is over: Closed at a success, Open at a failure |
| CircuitBreaking.RefusalMeansOutstanding | internal/middleware/circuitbreaker.go:79-84 | half-open refuses only while at least T requests are outstanding |
| CircuitBreaking.ModeFollowsHistory | internal/middleware/circuitbreaker.go:64-146 | opens exactly at the threshold-th failure since the last success, closes after exactly T successes without a failure or by Reset, leaves Open only past the timeout |
| CircuitBreaking.AnswersFollowHistory | internal/middleware/circuitbreaker.go:64-88 | in every run a request is let through in Closed always, in Open exactly more than the timeout after the latest failure, in half-open exactly below T active, as it is below T outstanding |
| CircuitBreaking.OpenRefuses | internal/middleware/circuitbreaker.go:72-78 | in Open, within the timeout of the latest failure, a request is refused and nothing changes |
| ChunkedCoding.HexRoundTrip | internal/httparser/parser.go:453 | what is printed in hexadecimal parses back, and contains nothing a size line treats specially |
| ChunkedCoding.LineRoundTrip | internal/httparser/parser.go:285-298 | a line written with its end is read back, and the rest of the input is left, if and only if it has no line feed, does not end in a carriage return and is not too long |
| ChunkedCoding.RoundTrip | internal/httparser/parser.go:319-389 | decoding the writer's output followed by any bytes returns the original bytes and leaves exactly those behind it |
| ChunkedCoding.CuttingDoesNotMatter | internal/httparser/parser.go:448-472 | how the stream was cut into reads makes no difference |
| ChunkedCoding.DecodesExactlyMessages | internal/httparser/parser.go:319-389 | the decoder accepts exactly the sequences of chunks whose lines it reads as the sizes of their data, if these fit, and gives their data; the lines themselves are the grammar's |
| ChunkGrammar.DecodesExactlyGrammar | internal/httparser/parser.go:319-389 | the reader accepts exactly the messages of the grammar whose data fit, gives their data and stops behind the empty line, or at the end of the input |
| ChunkGrammar.WrittenMessageIsRead | internal/httparser/parser.go:319-389 | chunks with sizes in either case, white space, signs and extensions, then trailers, an empty line and anything else give the data and leave the rest |
| ChunkGrammar.SizeIff | internal/httparser/parser.go:329-338 | a line gives the size n exactly if it is white space around a number, with or without sign, of value n in 64 bits, and nothing or an extension after a semicolon |
| ChunkGrammar.SizeLineIff | internal/httparser/parser.go:285-338 | the reader takes a line for the size n exactly if that text ends in a line feed within 8192 bytes |
| ChunkGrammar.EndsAreSkipped | internal/httparser/parser.go:378-389 | trailers are skipped through the first empty line, or to the end of the input |
| ChunkGrammar.SkippedHaveEnd | internal/httparser/parser.go:378-389 | and what is skipped is always trailers and such an end |
| ChunkGrammar.BrokenChunk | internal/httparser/parser.go:342-373 | which error a bad chunk behind good ones gives: negative, too large, short data, short end, other end |
| ChunkGrammar.BrokenLine | internal/httparser/parser.go:322-338 | which error a bad line behind good chunks gives: no line feed in time, no size |
| ChunkGrammar.HexIsWrittenSo | internal/httparser/parser.go:453 | sizes are written in digits 0 to 9 and a to f, without leading zeros |
| ChunkedCoding.StreamRoundTrip | internal/httparser/parser.go:448-472 | a whole source comes back; what a broken source left is never taken for a whole message |
| ChunkedCoding.CutMessage | internal/httparser/parser.go:319-389 | a written message that is cut short anywhere is malformed, unless at most its final two bytes are missing, and then all data come back |
| ChunkedCoding.CutStream | internal/httparser/parser.go:448-472 | whatever a failing destination or a broken source left of a stream, a reader gets all data or a malformed message |
| ChunkedCoding.Reader.ReadChunkedBody | internal/httparser/parser.go:319-376 | the reader decodes as the function does, error by error, and that accepts exactly the grammar; the body fits, the buffer holds at most twice what was declared, and regrowth copies at most that |
| ChunkedCoding.Reader.Grow | internal/httparser/parser.go:351-359 | the larger buffer begins with what was read |
| ChunkedCoding.Reader.ReadTrailerHeaders | internal/httparser/parser.go:378-389 | skips through the first empty line, or to the end |
| ChunkedCoding.WriteChunkedStream | internal/httparser/parser.go:448-472 | succeeds exactly if the source does not break and none of the writes it needs fails; then every nonempty read is a chunk and the last chunk follows, otherwise a beginning of that was written |
| Failover.AttemptsAreRetried | internal/proxy/proxy.go:422-490 | an attempt is retried exactly if the exchange failed or gave a status from 500 up that is listed: by the route if that has retries of its own and lists any, else by the proxy |
| Failover.ScheduleFollowsCandidates | internal/proxy/proxy.go:235-292 | while health does not change, attempt i goes to the i-th candidate, and to the last one when all were tried |
| Failover.CoversDistinctBackends | internal/proxy/proxy.go:235-292 | n failing attempts reach min(n, H) distinct addresses, the first choice first |
| Failover.RepeatsOnlyWhenUpWereTried | internal/proxy/proxy.go:253-261 | however health changes, an address is tried again only when every address healthy then was tried |
| Failover.RepeatsOnlyWhenAllWereTried | internal/proxy/proxy.go:247-261 | while health does not change, an address is tried again only after all healthy ones and the first choice were |
| Failover.FailingIsExhaustive | internal/proxy/proxy.go:235-282 | when all attempts fail retryably, exactly maxRetries + 1 are made, over as many distinct addresses as there can be |
| Failover.OnlyAnswersStop | internal/proxy/proxy.go:235-272 | with real attempts the loop ends at an answer below 500, or not listed for retries by route or proxy, or after all attempts, never at an error before |
| Failover.Proxy.NextBackend | internal/proxy/proxy.go:285-292 | the first healthy backend not tried yet, or none if all were |
| Failover.Proxy.Forward | internal/proxy/proxy.go:235-283 | with health changing as it may, the addresses tried are a beginning of the schedule, all but the last failed retryably, the result is the last attempt's, and there are as many as the route's own retries plus one if it has any, else the proxy's plus one, unless one ends the loop before |

## Left out

- RouteOrder.IndexRefinesScan: says nothing of patterns without a leading "/", which the index loses; see `FoundExactlyWhenRooted`.
- ChunkedCoding.Reader.ReadChunkedBody: the running total is unbounded, so its wrap-around past 63 bits is not modelled; white space around a size is ASCII only.
- WeightedRoundRobin.WeightedRR.Select: weights and sums are unbounded integers; 64-bit wrap-around is not modelled.
- RateLimiting.RateLimiter.Allow: tokens and seconds are reals, so rounding is not modelled; the clock is a parameter.
- ShardEngine.ExactlyOnce: holds for runs without synchronous timeouts, with a fresh reply channel per request; a timeout returns a pooled request that a worker may still hold.
- Sends on a closed queue, handler panics, and the choice of a shard by key; one shard is modelled, and shards share nothing.
- `ExactMatch`, `LongestPrefixMatch`, and the `wildcard` and `isExact` fields: the router does not use them.
- `Route`'s choice of a selector, and the IP-hash, header, canary and least-connections selectors: short computations without an invariant.
- Locks in the router, the selectors, the limiter and the breaker: their methods run one at a time here; `rebuildTree` under a read lock is not modelled.
- Slices that share a backing array, as after `RemoveRoute` or `SwapRoutes`: lists are values.
- `UpdateConfig` of the breaker in the middle of a run: lowering a threshold breaks the counters' bounds until the next step.
- Regular expressions, checksums and header canonicalisation: arbitrary functions, or names as given.
- Back-off delays, the tracker's health marks and `ForwardStream`, which repeats the loop of `Forward`.
- Networking, TLS, WebSocket, service discovery, file watching, metrics, dashboard, authentication, tenants, compression and configuration.
