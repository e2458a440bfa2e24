/** Smooth weighted round robin (internal/router/weighted_rr.go).

    A backend is known here by its place in the list; the list is its weights. */
module WeightedRoundRobin {
  import opened Wrappers

  function Sum(s: seq<int>): int {
    if s == [] then 0 else Sum(s[..|s| - 1]) + s[|s| - 1]
  }

  ghost predicate NonNegative(s: seq<int>) {
    forall i | 0 <= i < |s| :: 0 <= s[i]
  }

  /** The state a selection over `n` backends starts from: cut, or padded with zeros. */
  function Resized(current: seq<int>, n: nat): (r: seq<int>)
    ensures |r| == n
    ensures forall i | 0 <= i < n :: r[i] == if i < |current| then current[i] else 0
  {
    seq(n, i requires 0 <= i < n => if i < |current| then current[i] else 0)
  }

  function Added(current: seq<int>, weights: seq<int>): (r: seq<int>)
    requires |current| == |weights|
    ensures |r| == |weights| && forall i | 0 <= i < |r| :: r[i] == current[i] + weights[i]
  {
    seq(|weights|, i requires 0 <= i < |weights| => current[i] + weights[i])
  }

  /** The first largest value, when some value is not negative; the first place otherwise. */
  ghost predicate IsPick(raised: seq<int>, best: nat) {
    && best < |raised|
    && (if exists i :: 0 <= i < |raised| && raised[i] >= 0
        then forall i | 0 <= i < |raised| :: if i < best then raised[i] < raised[best] else raised[i] <= raised[best]
        else best == 0)
  }

  /** One selection takes `current` to `next` and picks `best`. */
  ghost predicate Selects(current: seq<int>, weights: seq<int>, best: nat, next: seq<int>) {
    && |current| == |weights|
    && IsPick(Added(current, weights), best)
    && next == Added(current, weights)[best := current[best] + weights[best] - Sum(weights)]
  }

  class WeightedRR {
    var currentWeights: array<int>

    constructor ()
      ensures fresh(currentWeights) && currentWeights[..] == []
    {
      currentWeights := new int[0];
      new;
      assert currentWeights[..] == [];
    }

    /** Cuts the state to `n` backends, or pads it with zeros. */
    method Resize(n: nat)
      modifies this
      ensures currentWeights.Length == n && currentWeights[..] == Resized(old(currentWeights[..]), n)
      ensures if old(currentWeights.Length) == n then currentWeights == old(currentWeights) else fresh(currentWeights)
    {
      if currentWeights.Length != n {
        var before := currentWeights;
        currentWeights := new int[n](i => 0);
        var common := if before.Length < n then before.Length else n;
        forall i | 0 <= i < common {
          currentWeights[i] := before[i];
        }
      }
      assert currentWeights[..] == Resized(old(currentWeights[..]), n);
    }

    method TotalWeight(weights: seq<int>) returns (totalWeight: int)
      ensures totalWeight == Sum(weights)
    {
      totalWeight := 0;
      for i := 0 to |weights|
        invariant totalWeight == Sum(weights[..i])
      {
        assert weights[..i + 1][..i] == weights[..i];
        totalWeight := totalWeight + weights[i];
      }
      assert weights[..|weights|] == weights;
    }

    /** Nothing for an empty list; the first backend, and no change beyond the resizing, when the weights add up to
        0. */
    method Select(weights: seq<int>) returns (pick: Option<nat>)
      modifies this, currentWeights
      ensures if old(currentWeights.Length) == |weights| || weights == [] then currentWeights == old(currentWeights)
              else fresh(currentWeights)
      ensures weights == [] ==> pick == None && currentWeights[..] == old(currentWeights[..])
      ensures weights != [] ==> pick.Some?
      ensures weights != [] && Sum(weights) == 0 ==>
                pick == Some(0) && currentWeights[..] == Resized(old(currentWeights[..]), |weights|)
      ensures weights != [] && Sum(weights) != 0 ==>
                Selects(Resized(old(currentWeights[..]), |weights|), weights, pick.value, currentWeights[..])
    {
      if |weights| == 0 {
        return None;
      }
      Resize(|weights|);
      ghost var start, current := currentWeights[..], currentWeights;
      var totalWeight := TotalWeight(weights);
      if totalWeight == 0 {
        return Some(0);
      }
      ghost var raised := Added(start, weights);
      var bestIdx: nat, bestWeight := 0, -1;
      for i := 0 to |weights|
        invariant currentWeights == current && bestIdx < |weights|
        invariant bestWeight == -1 ==> bestIdx == 0 && forall j | 0 <= j < i :: raised[j] < 0
        invariant bestWeight != -1 ==> bestIdx < i && bestWeight == raised[bestIdx] >= 0
        invariant bestWeight != -1 ==> forall j | 0 <= j < i :: if j < bestIdx then raised[j] < raised[bestIdx]
            else raised[j] <= raised[bestIdx]
        invariant forall j | 0 <= j < |weights| :: currentWeights[j] == if j < i then raised[j] else start[j]
      {
        currentWeights[i] := currentWeights[i] + weights[i];
        if currentWeights[i] > bestWeight {
          bestWeight := currentWeights[i];
          bestIdx := i;
        }
      }
      assert currentWeights[..] == raised;
      currentWeights[bestIdx] := currentWeights[bestIdx] - totalWeight;
      return Some(bestIdx);
    }
  }

  // ---------------------------------------------------------------- sums

  lemma {:induction false} SumOfAdded(current: seq<int>, weights: seq<int>)
    requires |current| == |weights|
    ensures Sum(Added(current, weights)) == Sum(current) + Sum(weights)
  {
    if weights != [] {
      var n := |weights| - 1;
      SumOfAdded(current[..n], weights[..n]);
      assert Added(current, weights)[..n] == Added(current[..n], weights[..n]);
    }
  }

  lemma {:induction false} SumOfUpdate(s: seq<int>, i: nat, v: int)
    requires i < |s|
    ensures Sum(s[i := v]) == Sum(s) - s[i] + v
  {
    var n := |s| - 1;
    if i < n {
      SumOfUpdate(s[..n], i, v);
      assert s[i := v][..n] == s[..n][i := v];
    } else {
      assert s[i := v][..n] == s[..n];
    }
  }

  /** Values that are not positive have no positive sum. */
  lemma {:induction false} SumAtMost(s: seq<int>, m: int)
    requires m <= 0 && forall i | 0 <= i < |s| :: s[i] <= m
    ensures Sum(s) <= 0
  {
    if s != [] {
      SumAtMost(s[..|s| - 1], m);
    }
  }

  lemma {:induction false} SumIsMonotonic(low: seq<int>, high: seq<int>, i: nat)
    requires |low| == |high| && i < |low| && forall j | 0 <= j < |low| :: low[j] <= high[j]
    ensures high[i] - low[i] <= Sum(high) - Sum(low)
    ensures Sum(low) <= Sum(high)
  {
    var n := |low| - 1;
    if i < n {
      SumIsMonotonic(low[..n], high[..n], i);
    } else if n > 0 {
      SumIsMonotonic(low[..n], high[..n], 0);
    }
  }

  // ---------------------------------------------------------------- one selection

  /** A selection keeps the sum of the current weights. */
  lemma SelectionConservesSum(current: seq<int>, weights: seq<int>, best: nat, next: seq<int>)
    requires Selects(current, weights, best, next)
    ensures Sum(next) == Sum(current)
  {
    SumOfAdded(current, weights);
    SumOfUpdate(Added(current, weights), best, current[best] + weights[best] - Sum(weights));
  }

  /** Unless the leftover is as negative as the weights are positive, the pick has the largest raised weight, and
      that is positive. */
  lemma PickIsLargest(current: seq<int>, weights: seq<int>, best: nat, next: seq<int>)
    requires Selects(current, weights, best, next) && Sum(current) + Sum(weights) > 0
    ensures current[best] + weights[best] >= 1
    ensures forall i | 0 <= i < |weights| :: current[i] + weights[i] <= current[best] + weights[best]
  {
    var raised := Added(current, weights);
    SumOfAdded(current, weights);
    if forall i | 0 <= i < |raised| :: raised[i] <= 0 {
      SumAtMost(raised, 0);
    }
  }

  /** The same state and list give the same pick and the same next state. */
  lemma SelectionIsDetermined(current: seq<int>, weights: seq<int>, b: nat, n: seq<int>, b': nat, n': seq<int>)
    requires Selects(current, weights, b, n) && Selects(current, weights, b', n')
    ensures b == b' && n == n'
  {
    var raised := Added(current, weights);
    var mine, other := raised[b], raised[b'];
  }

  // ---------------------------------------------------------------- runs over one list

  /** `states[t]` is the state before the t-th selection, which picks `picks[t]`. */
  ghost predicate IsRun(states: seq<seq<int>>, picks: seq<nat>, weights: seq<int>) {
    && |states| == |picks| + 1
    && |states[0]| == |weights|
    && (forall t | 0 <= t < |picks| :: Selects(states[t], weights, picks[t], states[t + 1]))
  }

  function Count(picks: seq<nat>, i: nat): nat {
    if picks == [] then 0
    else Count(picks[..|picks| - 1], i) + (if picks[|picks| - 1] == i then 1 else 0)
  }

  lemma LedgerStep(start: int, t: int, weight: int, w: int, n: int, d: int)
    ensures start + (t - 1) * weight - w * n + weight - w * d == start + t * weight - w * (n + d)
  {
    assert w * (n + d) == w * n + w * d;
    assert t * weight == (t - 1) * weight + weight;
  }

  lemma CountOfOneMore(picks: seq<nat>, t: nat, i: nat)
    requires 0 < t <= |picks|
    ensures Count(picks[..t], i) == Count(picks[..t - 1], i) + (if picks[t - 1] == i then 1 else 0)
  {
    assert picks[..t][..t - 1] == picks[..t - 1];
  }

  lemma LedgerMoves(states: seq<seq<int>>, picks: seq<nat>, weights: seq<int>, t: nat, i: nat)
    requires IsRun(states, picks, weights) && 0 < t <= |picks| && i < |weights|
    ensures |states[t - 1]| == |states[t]| == |weights| && Sum(states[t]) == Sum(states[t - 1])
    ensures states[t][i] == states[t - 1][i] + weights[i] - (if picks[t - 1] == i then Sum(weights) else 0)
  {
    hide Sum;
    assert Selects(states[t - 1], weights, picks[t - 1], states[t]);
    SelectionConservesSum(states[t - 1], weights, picks[t - 1], states[t]);
    hide IsPick;
  }

  /** The conservation law: a backend's state is its start, plus its weight each time, less the total each time it is
      picked. */
  lemma {:induction false} Ledger(states: seq<seq<int>>, picks: seq<nat>, weights: seq<int>, t: nat, i: nat)
    requires IsRun(states, picks, weights) && t <= |picks| && i < |weights|
    ensures |states[t]| == |weights| && Sum(states[t]) == Sum(states[0])
    ensures states[t][i] == states[0][i] + t * weights[i] - Sum(weights) * Count(picks[..t], i)
  {
    hide Sum;
    if t > 0 {
      Ledger(states, picks, weights, t - 1, i);
      LedgerMoves(states, picks, weights, t, i);
      CountOfOneMore(picks, t, i);
      hide Count;
      hide Selects;
      var d := if picks[t - 1] == i then 1 else 0;
      LedgerStep(states[0][i], t, weights[i], Sum(weights), Count(picks[..t - 1], i), d);
    } else {
      assert picks[..0] == [];
    }
  }

  function Min(a: int, b: int): int {
    if a <= b then a else b
  }

  /** The least a backend's current weight can become. */
  function Floor(start: seq<int>, weights: seq<int>): (r: seq<int>)
    ensures |r| == |start| && forall i | 0 <= i < |r| :: r[i] == Min(start[i], 1 - Sum(weights))
  {
    seq(|start|, i requires 0 <= i < |start| => Min(start[i], 1 - Sum(weights)))
  }

  lemma {:induction false} StaysAboveFloor(states: seq<seq<int>>, picks: seq<nat>, weights: seq<int>, t: nat)
    requires IsRun(states, picks, weights) && t <= |picks|
    requires NonNegative(weights) && Sum(weights) > 0 && Sum(states[0]) >= 0
    ensures |states[t]| == |weights| && Sum(states[t]) == Sum(states[0])
    ensures forall i | 0 <= i < |weights| :: Floor(states[0], weights)[i] <= states[t][i]
  {
    if t > 0 {
      StaysAboveFloor(states, picks, weights, t - 1);
      assert Selects(states[t - 1], weights, picks[t - 1], states[t]);
      SelectionConservesSum(states[t - 1], weights, picks[t - 1], states[t]);
      PickIsLargest(states[t - 1], weights, picks[t - 1], states[t]);
    }
  }

  /** Fairness from leftover state: after any number of selections, a backend's count differs from its
      share by an amount that the start state and the weights alone bound. */
  lemma FairnessFromLeftover(states: seq<seq<int>>, picks: seq<nat>, weights: seq<int>, t: nat, i: nat)
    requires IsRun(states, picks, weights) && t <= |picks| && i < |weights|
    requires NonNegative(weights) && Sum(weights) > 0 && Sum(states[0]) >= 0
    ensures var start, floor, ahead := states[0], Floor(states[0], weights), Sum(weights) * Count(picks[..t],
        i) - t * weights[i];
            start[i] - floor[i] - (Sum(start) - Sum(floor)) <= ahead <= start[i] - floor[i]
  {
    Ledger(states, picks, weights, t, i);
    StaysAboveFloor(states, picks, weights, t);
    SumIsMonotonic(Floor(states[0], weights), states[t], i);
  }

  // ---------------------------------------------------------------- exact fairness

  ghost predicate AllZero(s: seq<int>) {
    forall i | 0 <= i < |s| :: s[i] == 0
  }

  lemma {:induction false} SumOfZeros(s: seq<int>)
    requires AllZero(s)
    ensures Sum(s) == 0
  {
    if s != [] {
      SumOfZeros(s[..|s| - 1]);
    }
  }

  lemma NegativeMultiple(w: int, k: int)
    requires w > 0 && k < 0
    ensures w * k <= -w
  {
  }

  lemma PositiveMultiple(w: int, k: int)
    requires w > 0 && k > 0
    ensures w * k >= w
  {
  }

  /** A multiple of w above -w is not negative. */
  lemma MultipleAbove(w: int, k: int)
    requires w > 0 && w * k > -w
    ensures w * k >= 0
  {
    if k < 0 {
      NegativeMultiple(w, k);
    } else if k > 0 {
      PositiveMultiple(w, k);
    }
  }

  /** After a whole cycle every state is a multiple of the total weight, and so not negative. */
  lemma CycleLeavesNoDebt(states: seq<seq<int>>, picks: seq<nat>, weights: seq<int>, i: nat)
    requires IsRun(states, picks, weights) && AllZero(states[0]) && i < |weights|
    requires NonNegative(weights) && 0 < Sum(weights) <= |picks|
    ensures i < |states[Sum(weights)]| && states[Sum(weights)][i] >= 0
  {
    hide Sum;
    hide Selects;
    var w := Sum(weights);
    SumOfZeros(states[0]);
    StaysAboveFloor(states, picks, weights, w);
    Ledger(states, picks, weights, w, i);
    var n := Count(picks[..w], i);
    assert w * weights[i] - w * n == w * (weights[i] - n);
    MultipleAbove(w, weights[i] - n);
  }

  /** The first cycle from zero returns to zero. */
  lemma CycleReturnsToZero(states: seq<seq<int>>, picks: seq<nat>, weights: seq<int>)
    requires IsRun(states, picks, weights) && AllZero(states[0])
    requires NonNegative(weights) && 0 < Sum(weights) <= |picks|
    ensures states[Sum(weights)] == states[0]
  {
    hide Sum;
    hide Selects;
    var end := states[Sum(weights)];
    SumOfZeros(states[0]);
    StaysAboveFloor(states, picks, weights, Sum(weights));
    forall i | 0 <= i < |weights| ensures end[i] >= 0 {
      CycleLeavesNoDebt(states, picks, weights, i);
    }
    forall i | 0 <= i < |weights| ensures end[i] == 0 {
      SumIsMonotonic(states[0], end, i);
    }
  }

  /** The schedule from zero has the total weight as a period. */
  lemma {:induction false} ScheduleIsPeriodic(states: seq<seq<int>>, picks: seq<nat>, weights: seq<int>, t: nat)
    requires IsRun(states, picks, weights) && AllZero(states[0])
    requires NonNegative(weights) && 0 < Sum(weights) && t + Sum(weights) <= |picks|
    ensures states[t + Sum(weights)] == states[t]
    ensures t + Sum(weights) < |picks| ==> picks[t + Sum(weights)] == picks[t]
  {
    var w := Sum(weights);
    if t == 0 {
      CycleReturnsToZero(states, picks, weights);
    } else {
      ScheduleIsPeriodic(states, picks, weights, t - 1);
      SelectionIsDetermined(states[t - 1], weights, picks[t - 1], states[t], picks[t - 1 + w], states[t + w]);
    }
    if t + w < |picks| {
      SelectionIsDetermined(states[t], weights, picks[t], states[t + 1], picks[t + w], states[t + w + 1]);
    }
  }

  lemma {:induction false} CountOfWindow(picks: seq<nat>, from: nat, to: nat, i: nat)
    requires from <= to <= |picks|
    ensures Count(picks[from..to], i) == Count(picks[..to], i) - Count(picks[..from], i)
    decreases |picks| + to - from
  {
    if from < to {
      CountOfWindow(picks, from, to - 1, i);
      assert picks[from..to][..to - from - 1] == picks[from..to - 1];
      assert picks[..to][..to - 1] == picks[..to - 1];
    }
  }

  /** Exact fairness: from zero state, any stretch of as many selections as the weights add up to picks
      each backend exactly as often as its weight says. */
  lemma ExactFairness(states: seq<seq<int>>, picks: seq<nat>, weights: seq<int>, t: nat, i: nat)
    requires IsRun(states, picks, weights) && AllZero(states[0]) && i < |weights|
    requires NonNegative(weights) && 0 < Sum(weights) && t + Sum(weights) <= |picks|
    ensures Count(picks[t..t + Sum(weights)], i) == weights[i]
  {
    hide Sum;
    hide Selects;
    hide Count;
    var w := Sum(weights);
    ScheduleIsPeriodic(states, picks, weights, t);
    Ledger(states, picks, weights, t, i);
    Ledger(states, picks, weights, t + w, i);
    CountOfWindow(picks, t, t + w, i);
    EqualShares(states[0][i], t, weights[i], w, Count(picks[..t], i), Count(picks[..t + w], i));
  }

  /** From zero state a backend of weight 0 is never picked, not even in an unfinished cycle. */
  lemma ZeroWeightIsNeverPicked(states: seq<seq<int>>, picks: seq<nat>, weights: seq<int>, t: nat)
    requires IsRun(states, picks, weights) && AllZero(states[0]) && t < |picks|
    requires NonNegative(weights) && Sum(weights) > 0
    ensures picks[t] < |weights| && weights[picks[t]] > 0
  {
    hide Sum;
    SumOfZeros(states[0]);
    assert Selects(states[t], weights, picks[t], states[t + 1]);
    var b := picks[t];
    Ledger(states, picks, weights, t, b);
    PickIsLargest(states[t], weights, b, states[t + 1]);
    hide Count;
    if weights[b] == 0 {
      NoCredit(t, weights[b], Sum(weights), Count(picks[..t], b));
    }
  }

  lemma NoCredit(t: nat, weight: int, w: int, n: nat)
    requires w > 0 && weight == 0
    ensures t * weight - w * n <= 0
  {
    if n > 0 {
      PositiveMultiple(w, n);
    }
  }

  lemma EqualShares(start: int, t: int, weight: int, w: int, before: int, after: int)
    requires w > 0 && start + t * weight - w * before == start + (t + w) * weight - w * after
    ensures after - before == weight
  {
    assert (t + w) * weight == t * weight + w * weight;
    var d := after - before - weight;
    assert w * d == w * after - w * before - w * weight;
    if d < 0 {
      NegativeMultiple(w, d);
    } else if d > 0 {
      PositiveMultiple(w, d);
    }
  }

  // ---------------------------------------------------------------- changing lists

  lemma {:induction false} GrowingKeepsSum(current: seq<int>, n: nat)
    requires |current| <= n
    ensures Sum(Resized(current, n)) == Sum(current)
    decreases n
  {
    if |current| < n {
      GrowingKeepsSum(current, n - 1);
      assert Resized(current, n)[..n - 1] == Resized(current, n - 1);
    } else {
      assert Resized(current, n) == current;
    }
  }

  /** What one call to `Select` does to the state. */
  ghost predicate Calls(current: seq<int>, weights: seq<int>, pick: nat, next: seq<int>) {
    if weights == [] then next == current
    else if Sum(weights) == 0 then pick == 0 && next == Resized(current, |weights|)
    else Selects(Resized(current, |weights|), weights, pick, next)
  }

  /** Calls with changing lists, from a fresh selector. */
  ghost predicate IsListRun(states: seq<seq<int>>, lists: seq<seq<int>>, picks: seq<nat>) {
    && |states| == |picks| + 1 == |lists| + 1 && states[0] == []
    && (forall t | 0 <= t < |picks| :: Calls(states[t], lists[t], picks[t], states[t + 1]))
  }

  /** As long as no list is shorter than the one before (empty lists aside), the current weights add up
      to zero, and every pick has the largest raised weight. */
  lemma {:induction false} GrowingListsStayBalanced(states: seq<seq<int>>, lists: seq<seq<int>>, picks: seq<nat>,
      t: nat)
    requires IsListRun(states, lists, picks) && t <= |picks|
    requires forall l | l in lists :: NonNegative(l)
    requires forall s | 0 <= s < |lists| && lists[s] != [] :: |states[s]| <= |lists[s]|
    ensures Sum(states[t]) == 0
    ensures t < |picks| && lists[t] != [] && Sum(lists[t]) > 0 ==>
              var raised := Added(Resized(states[t], |lists[t]|), lists[t]);
              picks[t] < |raised| && raised[picks[t]] >= 1
                  && forall i | 0 <= i < |raised| :: raised[i] <= raised[picks[t]]
  {
    if t > 0 {
      GrowingListsStayBalanced(states, lists, picks, t - 1);
      var current, l := states[t - 1], lists[t - 1];
      assert Calls(current, l, picks[t - 1], states[t]);
      if l != [] {
        GrowingKeepsSum(current, |l|);
        if Sum(l) != 0 {
          SelectionConservesSum(Resized(current, |l|), l, picks[t - 1], states[t]);
        }
      }
    }
    if t < |picks| && lists[t] != [] && Sum(lists[t]) > 0 {
      assert Calls(states[t], lists[t], picks[t], states[t + 1]);
      GrowingKeepsSum(states[t], |lists[t]|);
      PickIsLargest(Resized(states[t], |lists[t]|), lists[t], picks[t], states[t + 1]);
    }
  }

  // ---------------------------------------------------------------- when a backend of weight 0 can be picked

  /** Later places are not behind earlier ones and at most one ahead of them; only the first place may lag further,
      behind places that are negative. */
  ghost predicate Level(current: seq<int>) {
    && (forall i, j | 0 <= i < j < |current| ::
          current[i] <= current[j] && (current[j] <= current[i] + 1 || (i == 0 && current[j] < 0)))
    && (forall i | 0 < i < |current| :: current[i] >= -1)
  }

  /** No list makes the next selection pick a backend of weight 0. */
  ghost predicate PicksOnlyWeighted(current: seq<int>) {
    forall weights, best, next | NonNegative(weights) && Sum(weights) > 0 && Selects(current, weights, best, next) ::
      weights[best] > 0
  }

  lemma {:induction false} SomeWeightIsPositive(weights: seq<int>) returns (i: nat)
    requires Sum(weights) > 0
    ensures i < |weights| && weights[i] > 0
  {
    var n := |weights| - 1;
    if weights[n] > 0 {
      i := n;
    } else {
      i := SomeWeightIsPositive(weights[..n]);
    }
  }

  lemma LevelPicksWeighted(current: seq<int>, weights: seq<int>, best: nat, next: seq<int>)
    requires Level(current) && NonNegative(weights) && Sum(weights) > 0 && Selects(current, weights, best, next)
    ensures weights[best] > 0
  {
    var i := SomeWeightIsPositive(weights);
    var raised := Added(current, weights);
    hide Sum;
    assert raised[i] >= current[i] + 1 && raised[best] == current[best] + weights[best];
  }

  /** The list in which only place i has a weight, and that is 1. */
  function Unit(n: nat, i: nat): (r: seq<int>)
    ensures |r| == n && forall j | 0 <= j < n :: r[j] == if j == i then 1 else 0
  {
    seq(n, j requires 0 <= j < n => if j == i then 1 else 0)
  }

  lemma SumOfUnit(n: nat, i: nat)
    requires i < n
    ensures Sum(Unit(n, i)) == 1
  {
    var zeros := seq(n, j requires 0 <= j < n => 0);
    SumOfZeros(zeros);
    SumOfUpdate(zeros, i, 1);
    assert zeros[i := 1] == Unit(n, i);
  }

  /** Every nonempty sequence has a pick. */
  lemma {:induction false} SomePick(raised: seq<int>) returns (best: nat)
    requires raised != []
    ensures IsPick(raised, best)
  {
    var n := |raised| - 1;
    if n == 0 {
      best := 0;
    } else {
      best := SomePick(raised[..n]);
      assert IsPick(raised[..n], best);
      assert forall i | 0 <= i < n :: raised[..n][i] == raised[i];
      if raised[n] >= 0 && raised[n] > raised[best] {
        best := n;
      }
    }
  }

  /** When raising place i by one does not make it the pick, the unit list picks a backend of weight 0. */
  lemma UnitPicksAnother(current: seq<int>, i: nat)
    requires i < |current| && !IsPick(Added(current, Unit(|current|, i)), i)
    ensures !PicksOnlyWeighted(current)
  {
    var weights := Unit(|current|, i);
    var best := SomePick(Added(current, weights));
    SumOfUnit(|current|, i);
    hide Sum;
    var next := Added(current, weights)[best := current[best] + weights[best] - Sum(weights)];
    assert Selects(current, weights, best, next) && weights[best] == 0;
  }

  /** From any state, whatever list comes next, a selection picks only backends with a weight if and only if the state
      is level. */
  lemma PicksOnlyWeightedIff(current: seq<int>)
    ensures Level(current) <==> PicksOnlyWeighted(current)
  {
    if Level(current) {
      forall weights, best, next | NonNegative(weights) && Sum(weights) > 0 && Selects(current, weights, best, next)
        ensures weights[best] > 0
      {
        LevelPicksWeighted(current, weights, best, next);
      }
    } else {
      var i := UnitFails(current);
      UnitPicksAnother(current, i);
    }
  }

  lemma UnitFails(current: seq<int>) returns (i: nat)
    requires !Level(current)
    ensures i < |current| && !IsPick(Added(current, Unit(|current|, i)), i)
  {
    if k :| 0 < k < |current| && current[k] < -1 {
      i := k;
      assert Added(current, Unit(|current|, i))[i] < 0;
    } else {
      var k, j :| 0 <= k < j < |current|
                  && !(current[k] <= current[j] && (current[j] <= current[k] + 1 || (k == 0 && current[j] < 0)));
      i := if current[k] > current[j] then j else k;
      var raised := Added(current, Unit(|current|, i));
      assert raised[k] == (if i == k then current[k] + 1 else current[k]);
      assert raised[j] == (if i == j then current[j] + 1 else current[j]);
    }
  }

  /** Among states that add up to zero only the zero state is level. */
  lemma LevelMeansZero(current: seq<int>)
    requires Sum(current) == 0
    ensures Level(current) <==> AllZero(current)
  {
    var n := |current|;
    var zeros := seq(n, j requires 0 <= j < n => 0);
    SumOfZeros(zeros);
    hide Sum;
    if Level(current) && n > 0 {
      if current[0] >= 0 {
        forall i | 0 <= i < n
          ensures current[i] == 0
        {
          SumIsMonotonic(zeros, current, i);
        }
      } else {
        SumIsMonotonic(current, zeros, 0);
      }
    }
  }

  /** While no list is shorter than the one before, the next selection over a list of n backends is sure to pick one with
      a weight if and only if every current weight is zero. */
  lemma GrowingListsPickOnlyWeightedIff(states: seq<seq<int>>, lists: seq<seq<int>>, picks: seq<nat>, t: nat, n: nat)
    requires IsListRun(states, lists, picks) && t <= |picks|
    requires forall l | l in lists :: NonNegative(l)
    requires forall s | 0 <= s < |lists| && lists[s] != [] :: |states[s]| <= |lists[s]|
    requires |states[t]| <= n
    ensures AllZero(states[t]) <==> PicksOnlyWeighted(Resized(states[t], n))
  {
    GrowingListsStayBalanced(states, lists, picks, t);
    GrowingKeepsSum(states[t], n);
    var current := Resized(states[t], n);
    LevelMeansZero(current);
    PicksOnlyWeightedIff(current);
    assert AllZero(states[t]) <==> AllZero(current) by {
      hide Sum;
      assert forall i | 0 <= i < |states[t]| :: current[i] == states[t][i];
    }
  }

  /** Two routes that share the selector are enough: [1, 1] picks place 0 and leaves [-1, 1], and [1, 0] then picks
      place 1, whose weight is 0. */
  lemma SharedSelectorCanPickZeroWeight()
    ensures IsListRun([[], [-1, 1], [0, 0]], [[1, 1], [1, 0]], [0, 1])
  {
    Total2(1, 1);
    Total2(1, 0);
    assert Resized([], 2) == [0, 0] && Resized([-1, 1], 2) == [-1, 1];
    assert Added([0, 0], [1, 1]) == [1, 1] && Added([-1, 1], [1, 0]) == [0, 1];
    assert IsPick([1, 1], 0) by { assert [1, 1][0] >= 0; }
    assert IsPick([0, 1], 1) by { assert [0, 1][1] >= 0; }
    assert [1, 1][0 := -1] == [-1, 1] && [0, 1][1 := 0] == [0, 0];
    assert Selects([0, 0], [1, 1], 0, [-1, 1]) && Selects([-1, 1], [1, 0], 1, [0, 0]);
  }

  lemma Total2(a: int, b: int)
    ensures Sum([a, b]) == a + b
  {
    assert [a, b][..1] == [a];
    assert Sum([a]) == a by {
      assert [a][..0] == [];
    }
  }

  lemma Total3(a: int, b: int, c: int)
    ensures Sum([a, b, c]) == a + b + c
  {
    assert [a, b, c][..2] == [a, b];
    Total2(a, b);
  }

  lemma Selects115(a: int, b: int, c: int, best: nat, next: seq<int>)
    requires best < 3 && IsPick([a + 1, b + 1, c + 5], best)
    requires next == [a + 1, b + 1, c + 5][best := [a + 1, b + 1, c + 5][best] - 7]
    ensures Selects([a, b, c], [1, 1, 5], best, next)
  {
    Total3(1, 1, 5);
    assert Added([a, b, c], [1, 1, 5]) == [a + 1, b + 1, c + 5];
  }

  /** After a list shrinks, even the sum is lost, and the remaining states can be so low that no weight counts:
      five selections over [1, 1, 5] leave [-2, -2, 4], and the list [0, 1] then picks place 0. */
  lemma ShrinkingCanPickZeroWeight()
    ensures IsRun([[0, 0, 0], [1, 1, -2], [2, 2, -4], [-4, 3, 1], [-3, 4, -1], [-2, -2, 4]], [2, 2, 0, 2, 1], [1, 1, 5])
    ensures Selects(Resized([-2, -2, 4], 2), [0, 1], 0, [-3, -1])
  {
    hide Selects;
    Selects115(0, 0, 0, 2, [1, 1, -2]);
    Selects115(1, 1, -2, 2, [2, 2, -4]);
    Selects115(2, 2, -4, 0, [-4, 3, 1]);
    Selects115(-4, 3, 1, 2, [-3, 4, -1]);
    Selects115(-3, 4, -1, 1, [-2, -2, 4]);
    ShrunkSelects();
  }

  lemma ShrunkSelects()
    ensures Selects(Resized([-2, -2, 4], 2), [0, 1], 0, [-3, -1])
  {
    Total2(0, 1);
    assert Resized([-2, -2, 4], 2) == [-2, -2];
    var raised := Added([-2, -2], [0, 1]);
    assert raised == [-2, -1];
    assert forall i | 0 <= i < |raised| :: raised[i] < 0;
    assert IsPick(raised, 0);
    assert raised[0 := -3] == [-3, -1];
    assert Selects([-2, -2], [0, 1], 0, [-3, -1]);
  }
}
