/** GPU budget rebalancing (src/ai_engine/scheduler/analysis_scheduler.cc). */
module AnalysisScheduler {
  import opened Sequences

  datatype Strategy = Realtime | Polling | OnDemand

  /** Configuration, inference history and the outcome of the last rebalancing. */
  datatype Task = Task(enabled: bool, strategy: Strategy, targetFps: int, inferences: nat, totalTime: nat,
                       throttled: bool, effectiveFps: int, interval: int)
  type Tasks = map<int, Task>

  datatype Scheduler = Scheduler(tasks: Tasks, budget: int, utilization: real, used: int)

  // ---------- costs and order ----------

  /** Microseconds per inference, 10 ms if unknown. */
  function AverageTime(t: Task): nat {
    if t.inferences > 0 then t.totalTime / t.inferences else 10000
  }

  function Needed(t: Task): int {
    AverageTime(t) * t.targetFps
  }

  function Priority(t: Task): nat {
    match t.strategy
    case Realtime => 0
    case Polling => 1
    case OnDemand => 2
  }

  predicate Before(tasks: Tasks, a: int, b: int) {
    a in tasks && b in tasks
    && (Priority(tasks[a]) < Priority(tasks[b]) || (Priority(tasks[a]) == Priority(tasks[b]) && a < b))
  }

  ghost predicate Distinct(ids: seq<int>) {
    forall i, j :: 0 <= i < j < |ids| ==> ids[i] != ids[j]
  }

  /** Any order in which the map may be walked. */
  ghost predicate Enumerates(tasks: Tasks, ids: seq<int>) {
    Distinct(ids) && forall id :: id in ids <==> id in tasks
  }

  /** The enabled tasks by strategy, then by channel. */
  ghost predicate IsOrder(tasks: Tasks, order: seq<int>) {
    && (forall i, j :: 0 <= i < j < |order| ==> Before(tasks, order[i], order[j]))
    && (forall id :: id in order <==> id in tasks && tasks[id].enabled)
  }

  /** Estimated cost of the enabled tasks among `ids`. */
  function Estimate(tasks: Tasks, ids: seq<int>): int {
    if ids == [] then 0
    else
      var id := ids[|ids| - 1];
      Estimate(tasks, ids[..|ids| - 1]) + (if id in tasks && tasks[id].enabled then Needed(tasks[id]) else 0)
  }

  // ---------- allocation ----------

  function WithFps(t: Task, throttled: bool, fps: int): Task {
    t.(throttled := throttled, effectiveFps := fps, interval := if fps > 0 then 1000000 / fps else t.interval)
  }

  /** What a task gets from the remaining budget, and what is left. */
  function Grant(t: Task, remaining: int): (Task, int) {
    if remaining >= Needed(t) then (WithFps(t, false, t.targetFps), remaining - Needed(t))
    else if remaining > 0 && AverageTime(t) > 0 then
      var achievable := remaining / AverageTime(t);
      (WithFps(t, true, if achievable < 1 then 1 else achievable), 0)
    else (WithFps(t, true, 1), remaining)
  }

  function Allocate(tasks: Tasks, order: seq<int>, budget: int): (Tasks, int) {
    if order == [] then (tasks, budget)
    else
      var (m, remaining) := Allocate(tasks, order[..|order| - 1], budget);
      var id := order[|order| - 1];
      if id !in tasks then (m, remaining)
      else
        var (t, left) := Grant(tasks[id], remaining);
        (m[id := t], left)
  }

  function Unthrottled(t: Task): Task {
    WithFps(t, false, t.targetFps)
  }

  function Rebalanced(s: Scheduler, ids: seq<int>, order: seq<int>): Scheduler {
    if s.tasks == map[] then s.(utilization := 0.0, used := 0)
    else
      var total := Estimate(s.tasks, ids);
      Scheduler(if total > s.budget then Allocate(s.tasks, order, s.budget).0
                else map id | id in s.tasks :: Unthrottled(s.tasks[id]),
                s.budget,
                if s.budget > 0 then total as real / s.budget as real else 0.0,
                0)
  }

  // ---------- independence of iteration order ----------

  lemma {:induction false} OrderUnique(tasks: Tasks, a: seq<int>, b: seq<int>)
    requires (forall i, j :: 0 <= i < j < |a| ==> Before(tasks, a[i], a[j]))
    requires (forall i, j :: 0 <= i < j < |b| ==> Before(tasks, b[i], b[j]))
    requires forall id :: id in a <==> id in b
    ensures a == b
    decreases |a|
  {
    if a == [] || b == [] {
      NoMembers(a, b);
    } else {
      var x, y := a[|a| - 1], b[|b| - 1];
      assert x in a && y in b;
      LastComesLast(tasks, a, y);
      LastComesLast(tasks, b, x);
      assert x == y by {
        assert Before(tasks, x, y) ==> !Before(tasks, y, x);
      }
      hide Before;
      SameWithoutLast(tasks, a, b);
      OrderUnique(tasks, a[..|a| - 1], b[..|b| - 1]);
      assert a == a[..|a| - 1] + [x] && b == b[..|b| - 1] + [x];
    }
  }

  lemma SameWithoutLast(tasks: Tasks, a: seq<int>, b: seq<int>)
    requires (forall i, j :: 0 <= i < j < |a| ==> Before(tasks, a[i], a[j]))
    requires (forall i, j :: 0 <= i < j < |b| ==> Before(tasks, b[i], b[j]))
    requires (forall id :: id in a <==> id in b) && a != [] && b != [] && a[|a| - 1] == b[|b| - 1]
    ensures var a', b' := a[..|a| - 1], b[..|b| - 1]; forall id :: id in a' <==> id in b'
  {
    var x, a', b' := a[|a| - 1], a[..|a| - 1], b[..|b| - 1];
    assert a == a' + [x] && b == b' + [x];
    LastNotBefore(tasks, a);
    LastNotBefore(tasks, b);
    hide Before;
    forall id ensures id in a' <==> id in b' {
      assert id in a <==> id in a' || id == x;
      assert id in b <==> id in b' || id == x;
    }
  }

  lemma LastNotBefore(tasks: Tasks, ids: seq<int>)
    requires ids != [] && forall i, j :: 0 <= i < j < |ids| ==> Before(tasks, ids[i], ids[j])
    ensures ids[|ids| - 1] !in ids[..|ids| - 1]
  {
    forall i | 0 <= i < |ids| - 1 ensures ids[i] != ids[|ids| - 1] {
      assert Before(tasks, ids[i], ids[|ids| - 1]);
    }
  }

  lemma LastComesLast(tasks: Tasks, ids: seq<int>, id: int)
    requires (forall i, j :: 0 <= i < j < |ids| ==> Before(tasks, ids[i], ids[j])) && id in ids
    ensures id == ids[|ids| - 1] || Before(tasks, id, ids[|ids| - 1])
  {
    var i :| 0 <= i < |ids| && ids[i] == id;
    if i < |ids| - 1 {
      assert Before(tasks, ids[i], ids[|ids| - 1]);
    }
  }

  lemma NoMembers(a: seq<int>, b: seq<int>)
    requires forall id :: id in a <==> id in b
    ensures a == [] <==> b == []
  {
    if a != [] {
      var x := a[0];
      assert x in a;
      assert x in b;
    }
    if b != [] {
      var x := b[0];
      assert x in b;
      assert x in a;
    }
  }

  lemma {:induction false} EstimateWithout(tasks: Tasks, ids: seq<int>, k: nat)
    requires k < |ids|
    ensures Estimate(tasks, ids) == Estimate(tasks, Without(ids, k)) + Estimate(tasks, [ids[k]])
  {
    hide Needed;
    var n := |ids|;
    var w := Without(ids, k);
    if k == n - 1 {
      assert w == ids[..n - 1];
      assert [ids[k]][..0] == [];
    } else {
      EstimateWithout(tasks, ids[..n - 1], k);
      assert w[..|w| - 1] == Without(ids[..n - 1], k) && w[|w| - 1] == ids[n - 1];
    }
  }

  lemma {:induction false} EstimateSame(tasks: Tasks, a: seq<int>, b: seq<int>)
    requires Distinct(a) && Distinct(b) && forall id :: id in a <==> id in b
    ensures Estimate(tasks, a) == Estimate(tasks, b)
    decreases |a|
  {
    NoMembers(a, b);
    if a != [] {
      var x := a[|a| - 1];
      assert x in b;
      var k :| 0 <= k < |b| && b[k] == x;
      var a', b' := a[..|a| - 1], Without(b, k);
      RemoveSame(a, b, k);
      EstimateSame(tasks, a', b');
      EstimateWithout(tasks, b, k);
      EstimateWithout(tasks, a, |a| - 1);
      assert Without(a, |a| - 1) == a';
    }
  }

  lemma RemoveSame(a: seq<int>, b: seq<int>, k: nat)
    requires Distinct(a) && Distinct(b) && (forall id :: id in a <==> id in b)
    requires a != [] && k < |b| && b[k] == a[|a| - 1]
    ensures Distinct(a[..|a| - 1]) && Distinct(Without(b, k))
    ensures forall id :: id in a[..|a| - 1] <==> id in Without(b, k)
  {
    var x, a', b' := a[|a| - 1], a[..|a| - 1], Without(b, k);
    assert a == a' + [x];
    assert forall i :: 0 <= i < |b'| ==> b'[i] == b[if i < k then i else i + 1];
    forall id ensures id in a' <==> id in b' {
      if id in a' {
        assert id in b && id != x;
        var i :| 0 <= i < |b| && b[i] == id;
        assert b'[if i < k then i else i - 1] == id;
      }
      if id in b' {
        var i :| 0 <= i < |b'| && b'[i] == id;
        assert id in b && id != x;
        assert id in a;
      }
    }
  }

  /** Rebalancing is a function of the task map: the order in which the hash map is walked never shows. */
  lemma RebalancingIsDeterministic(s: Scheduler, ids: seq<int>, order: seq<int>, ids': seq<int>, order': seq<int>)
    requires Enumerates(s.tasks, ids) && Enumerates(s.tasks, ids')
    requires IsOrder(s.tasks, order) && IsOrder(s.tasks, order')
    ensures Rebalanced(s, ids, order) == Rebalanced(s, ids', order')
  {
    EstimateSame(s.tasks, ids, ids');
    OrderUnique(s.tasks, order, order');
  }

  // ---------- what the allocation guarantees ----------

  /** Enabled tasks ask for no negative cost, and the budget is not negative. */
  ghost predicate Sane(tasks: Tasks, budget: int) {
    budget >= 0 && forall id :: id in tasks && tasks[id].enabled ==> tasks[id].targetFps >= 0
  }

  lemma NeededSign(t: Task)
    requires t.targetFps >= 0
    ensures Needed(t) >= 0 && (Needed(t) > 0 ==> AverageTime(t) > 0 && t.targetFps >= 1)
  {
    if AverageTime(t) == 0 || t.targetFps == 0 {
      assert Needed(t) == 0;
    }
  }

  /** One grant: fair to the task, and never more than what remains plus one inference. */
  lemma GrantBounds(t: Task, remaining: int)
    requires t.targetFps >= 0 && remaining >= 0
    ensures
      var (g, left) := Grant(t, remaining);
      && 0 <= left <= remaining
      && (t.targetFps >= 1 ==> 1 <= g.effectiveFps <= t.targetFps)
      && (!g.throttled ==> g.effectiveFps == t.targetFps && left == remaining - Needed(t))
      && (g.throttled <==> remaining < AverageTime(t) * t.targetFps) && (g.throttled ==> left == 0)
      && AverageTime(t) * g.effectiveFps + left <= remaining + (if g.throttled then AverageTime(t) else 0)
      && AverageTime(g) == AverageTime(t)
  {
    NeededSign(t);
    var avg := AverageTime(t);
    if remaining < Needed(t) {
      var q := remaining / avg;
      assert q * avg <= remaining;
      if q >= t.targetFps {
        MulMonotone(avg, t.targetFps, q);
        assert false;
      }
    }
  }

  /** A throttled task gets the largest rate that the remaining budget covers, and at least one inference a second. */
  lemma GrantIsLargest(t: Task, remaining: int)
    requires t.targetFps >= 0 && 0 <= remaining < AverageTime(t) * t.targetFps
    ensures
      var fps, average := Grant(t, remaining).0.effectiveFps, AverageTime(t);
      fps >= 1 && (fps > 1 ==> average * fps <= remaining) && remaining < average * (fps + 1)
  {
    NeededSign(t);
    var average := AverageTime(t);
    var q := remaining / average;
    assert q * average <= remaining < (q + 1) * average;
  }

  /** The average is the mean of the times reported, rounded down; the cost of a second is that of its inferences. */
  lemma AverageIsMean(t: Task)
    ensures t.inferences > 0 ==> AverageTime(t) * t.inferences <= t.totalTime < (AverageTime(t) + 1) * t.inferences
    ensures t.inferences == 0 ==> AverageTime(t) == 10000
  {
    if t.inferences > 0 {
      var q := t.totalTime / t.inferences;
      assert t.totalTime == q * t.inferences + t.totalTime % t.inferences;
    }
  }

  /** Realtime tasks come first, then polling, then on-demand; equals by channel number. Nobody else is in the order. */
  lemma OrderByStrategy(tasks: Tasks, order: seq<int>, i: nat, j: nat)
    requires IsOrder(tasks, order) && i < j < |order|
    ensures order[i] in tasks && order[j] in tasks && tasks[order[i]].enabled && tasks[order[j]].enabled
    ensures
      var a, b := tasks[order[i]].strategy, tasks[order[j]].strategy;
      && (b.Realtime? ==> a.Realtime?) && (a.OnDemand? ==> b.OnDemand?) && (a == b ==> order[i] < order[j])
  {
    assert Before(tasks, order[i], order[j]);
    assert order[i] in order && order[j] in order;
  }

  /** The interval between frames, in microseconds, is the longest at which the rate is met. */
  ghost predicate Paced(t: Task) {
    t.effectiveFps >= 1 ==> t.interval * t.effectiveFps <= 1000000 < (t.interval + 1) * t.effectiveFps
  }

  lemma WithFpsPaced(t: Task, throttled: bool, fps: int)
    ensures Paced(WithFps(t, throttled, fps))
  {
    if fps >= 1 {
      var q := 1000000 / fps;
      assert 1000000 == q * fps + 1000000 % fps;
    }
  }

  lemma {:induction false} AllocationPaced(tasks: Tasks, order: seq<int>, budget: int, id: int)
    requires id in order && id in tasks
    ensures id in Allocate(tasks, order, budget).0 && Paced(Allocate(tasks, order, budget).0[id])
  {
    var init, last := order[..|order| - 1], order[|order| - 1];
    assert order == init + [last];
    var (m, remaining) := Allocate(tasks, init, budget);
    AllocationKeepsKeys(tasks, init, budget);
    if last == id {
      var t := Grant(tasks[id], remaining).0;
      WithFpsPaced(tasks[id], t.throttled, t.effectiveFps);
    } else {
      AllocationPaced(tasks, init, budget, id);
    }
  }

  lemma {:induction false} AllocationKeepsKeys(tasks: Tasks, order: seq<int>, budget: int)
    ensures Allocate(tasks, order, budget).0.Keys == tasks.Keys
    decreases |order|
  {
    hide Grant;
    if order != [] {
      AllocationKeepsKeys(tasks, order[..|order| - 1], budget);
    }
  }

  /** After a rebalancing every enabled task has the interval of its rate; the utilisation is the estimate's share. */
  lemma RebalancedPaced(s: Scheduler, ids: seq<int>, order: seq<int>)
    requires Enumerates(s.tasks, ids) && IsOrder(s.tasks, order)
    ensures
      var r := Rebalanced(s, ids, order);
      && (forall id :: id in s.tasks && s.tasks[id].enabled ==> id in r.tasks && Paced(r.tasks[id]))
      && r.budget == s.budget && r.used == 0
      && (s.tasks == map[] || s.budget <= 0 ==> r.utilization == 0.0)
      && (s.tasks != map[] && s.budget > 0 ==>
            r.utilization * s.budget as real == Estimate(s.tasks, ids) as real)
  {
    hide Paced, Allocate, Estimate;
    if s.budget > 0 {
      ShareTimesBudget(Estimate(s.tasks, ids) as real, s.budget as real);
    }
    forall id | id in s.tasks && s.tasks[id].enabled
      ensures var m := Rebalanced(s, ids, order).tasks; id in m && Paced(m[id])
    {
      if Estimate(s.tasks, ids) > s.budget {
        AllocationPaced(s.tasks, order, s.budget, id);
      } else {
        WithFpsPaced(s.tasks[id], false, s.tasks[id].targetFps);
      }
    }
  }

  lemma ShareTimesBudget(total: real, budget: real)
    requires budget > 0.0
    ensures total / budget * budget == total
  {
  }

  lemma MulMonotone(a: nat, b: int, c: int)
    requires b <= c
    ensures a * b <= a * c
  {
  }

  /** Cost granted to the tasks of `ids`. */
  function Granted(m: Tasks, ids: seq<int>): int {
    if ids == [] then 0
    else
      var id := ids[|ids| - 1];
      Granted(m, ids[..|ids| - 1]) + (if id in m then AverageTime(m[id]) * m[id].effectiveFps else 0)
  }

  /** One inference for each throttled task of `ids`. */
  function Slack(m: Tasks, ids: seq<int>): int {
    if ids == [] then 0
    else
      var id := ids[|ids| - 1];
      Slack(m, ids[..|ids| - 1]) + (if id in m && m[id].throttled then AverageTime(m[id]) else 0)
  }

  lemma {:induction false} UntouchedSums(m: Tasks, id: int, t: Task, ids: seq<int>)
    requires id !in ids
    ensures Granted(m[id := t], ids) == Granted(m, ids) && Slack(m[id := t], ids) == Slack(m, ids)
  {
    if ids != [] {
      assert ids[|ids| - 1] in ids;
      UntouchedSums(m, id, t, ids[..|ids| - 1]);
    }
  }

  /** The tasks granted so far, in terms of the map they started from. */
  ghost predicate FairEach(tasks: Tasks, m: Tasks, order: seq<int>) {
    && m.Keys == tasks.Keys
    && (forall id :: id in order ==> id in tasks)
    && (forall id :: id in tasks && id !in order ==> m[id] == tasks[id])
    && (forall id :: id in order && tasks[id].targetFps >= 1 ==> 1 <= m[id].effectiveFps <= tasks[id].targetFps)
    && (forall id :: id in order && !m[id].throttled ==> m[id] == Unthrottled(tasks[id]))
  }

  /** Once one task is throttled nothing remains, and every later task that costs anything is throttled too. */
  ghost predicate FairOrder(tasks: Tasks, m: Tasks, order: seq<int>, remaining: int) {
    && (forall i :: 0 <= i < |order| ==> order[i] in tasks && order[i] in m)
    && (forall i :: 0 <= i < |order| && m[order[i]].throttled ==> remaining == 0)
    && (forall i, j :: 0 <= i < j < |order| && m[order[i]].throttled && Needed(tasks[order[j]]) > 0 ==>
          m[order[j]].throttled)
  }

  ghost predicate Fair(tasks: Tasks, m: Tasks, order: seq<int>, budget: int, remaining: int) {
    && FairEach(tasks, m, order) && FairOrder(tasks, m, order, remaining)
    && 0 <= remaining && Granted(m, order) + remaining <= budget + Slack(m, order)
  }

  lemma {:induction false} AllocationIsFair(tasks: Tasks, order: seq<int>, budget: int)
    requires Sane(tasks, budget) && Distinct(order) && forall id :: id in order ==> id in tasks && tasks[id].enabled
    ensures Fair(tasks, Allocate(tasks, order, budget).0, order, budget, Allocate(tasks, order, budget).1)
  {
    if order != [] {
      var init, id := order[..|order| - 1], order[|order| - 1];
      assert order == init + [id] && id in order;
      AllocationIsFair(tasks, init, budget);
      var (m, remaining) := Allocate(tasks, init, budget);
      assert id !in init;
      FairStep(tasks, m, init, id, budget, remaining);
    }
  }

  lemma FairEachStep(tasks: Tasks, m: Tasks, init: seq<int>, id: int, t: Task)
    requires FairEach(tasks, m, init) && id in tasks && id !in init
    requires tasks[id].targetFps >= 1 ==> 1 <= t.effectiveFps <= tasks[id].targetFps
    requires !t.throttled ==> t == Unthrottled(tasks[id])
    ensures FairEach(tasks, m[id := t], init + [id])
  {
    hide Unthrottled;
    assert forall x :: x in init + [id] <==> x in init || x == id;
  }

  lemma FairOrderStep(tasks: Tasks, m: Tasks, init: seq<int>, id: int, t: Task, remaining: int, left: int)
    requires FairOrder(tasks, m, init, remaining) && id in tasks && id !in init
    requires t.throttled <==> remaining < Needed(tasks[id])
    requires (t.throttled ==> left == 0) && 0 <= left <= remaining
    ensures FairOrder(tasks, m[id := t], init + [id], left)
  {
    hide Needed;
    var m', order := m[id := t], init + [id];
    forall i | 0 <= i < |order|
      ensures order[i] in tasks && order[i] in m'
      ensures i < |init| ==> order[i] == init[i] && m'[order[i]] == m[init[i]]
    {
      assert i < |init| ==> init[i] in init;
    }
  }

  lemma FairStep(tasks: Tasks, m: Tasks, init: seq<int>, id: int, budget: int, remaining: int)
    requires Fair(tasks, m, init, budget, remaining) && id in tasks && id !in init && tasks[id].targetFps >= 0
    ensures
      var (t, left) := Grant(tasks[id], remaining);
      Fair(tasks, m[id := t], init + [id], budget, left)
  {
    var (t, left) := Grant(tasks[id], remaining);
    GrantBounds(tasks[id], remaining);
    GrantUnthrottled(tasks[id], remaining);
    FairEachStep(tasks, m, init, id, t);
    FairOrderStep(tasks, m, init, id, t, remaining, left);
    UntouchedSums(m, id, t, init);
    hide Grant, Needed, AverageTime, Unthrottled, FairEach, FairOrder;
    assert (init + [id])[..|init|] == init;
  }

  lemma GrantUnthrottled(t: Task, remaining: int)
    ensures !Grant(t, remaining).0.throttled ==> Grant(t, remaining).0 == Unthrottled(t)
  {
  }

  /** When the estimate fits the budget the greedy pass throttles nobody, so the two branches agree on enabled tasks. */
  lemma {:induction false} BranchesAgree(tasks: Tasks, order: seq<int>, budget: int)
    requires Sane(tasks, budget) && Distinct(order) && forall id :: id in order ==> id in tasks && tasks[id].enabled
    requires Estimate(tasks, order) <= budget
    ensures
      var (m, remaining) := Allocate(tasks, order, budget);
      remaining == budget - Estimate(tasks, order) &&
      forall id :: id in order ==> id in m && m[id] == Unthrottled(tasks[id])
  {
    if order != [] {
      var init, id := order[..|order| - 1], order[|order| - 1];
      assert order == init + [id] && id in order;
      NeededSign(tasks[id]);
      BranchesAgree(tasks, init, budget);
      hide Needed, Unthrottled;
      GrantFull(tasks[id], budget - Estimate(tasks, init));
    }
  }

  lemma GrantFull(t: Task, remaining: int)
    requires remaining >= Needed(t)
    ensures Grant(t, remaining) == (Unthrottled(t), remaining - Needed(t))
  {
  }

  lemma OrderIsDistinct(tasks: Tasks, order: seq<int>)
    requires IsOrder(tasks, order)
    ensures Distinct(order)
  {
    forall i, j | 0 <= i < j < |order| ensures order[i] != order[j] {
      assert Before(tasks, order[i], order[j]);
    }
  }

  /**
    * A rebalancing over budget: throttling starts at one point of the priority order and hits every later task
    * that costs anything, each target of at least 1 gets between 1 and its target, disabled tasks are untouched,
    * and the cost granted is at most the budget plus one inference per throttled task.
    */
  lemma OverBudget(s: Scheduler, ids: seq<int>, order: seq<int>)
    requires Enumerates(s.tasks, ids) && IsOrder(s.tasks, order) && Sane(s.tasks, s.budget)
    requires Estimate(s.tasks, ids) > s.budget
    ensures
      var m := Rebalanced(s, ids, order).tasks;
      && m.Keys == s.tasks.Keys
      && (forall id :: id in s.tasks && !s.tasks[id].enabled ==> m[id] == s.tasks[id])
      && (forall id :: id in s.tasks && s.tasks[id].enabled && s.tasks[id].targetFps >= 1 ==>
            1 <= m[id].effectiveFps <= s.tasks[id].targetFps)
      && (forall i, j :: 0 <= i < j < |order| && m[order[i]].throttled && Needed(s.tasks[order[j]]) > 0 ==>
            m[order[j]].throttled)
      && Granted(m, order) <= s.budget + Slack(m, order)
  {
    OrderIsDistinct(s.tasks, order);
    AllocationIsFair(s.tasks, order, s.budget);
    NotEmptyWhenCostly(s, ids);
    hide Allocate;
  }

  function EnabledOf(tasks: Tasks, ids: seq<int>): (r: seq<int>)
    ensures forall x :: x in r <==> x in ids && x in tasks && tasks[x].enabled
  {
    Filter(ids, id => id in tasks && tasks[id].enabled)
  }

  lemma {:induction false} EnabledDistinct(tasks: Tasks, ids: seq<int>)
    requires Distinct(ids)
    ensures Distinct(EnabledOf(tasks, ids))
  {
    if ids != [] {
      var init, id := ids[..|ids| - 1], ids[|ids| - 1];
      EnabledDistinct(tasks, init);
      var r := EnabledOf(tasks, init);
      assert id !in init;
      if id in tasks && tasks[id].enabled {
        DistinctSnoc(r, id);
      } else {
        assert r + [] == r;
      }
    }
  }

  lemma {:induction false} EstimateOfEnabled(tasks: Tasks, ids: seq<int>)
    ensures Estimate(tasks, EnabledOf(tasks, ids)) == Estimate(tasks, ids)
  {
    hide Needed;
    if ids != [] {
      var init, id := ids[..|ids| - 1], ids[|ids| - 1];
      EstimateOfEnabled(tasks, init);
      var r := EnabledOf(tasks, init);
      if id in tasks && tasks[id].enabled {
        assert (r + [id])[..|r|] == r;
      } else {
        assert r + [] == r;
      }
    }
  }

  /** Within budget, the branch that lifts all throttling does to enabled tasks what the greedy pass would do. */
  lemma WithinBudget(s: Scheduler, ids: seq<int>, order: seq<int>)
    requires Enumerates(s.tasks, ids) && IsOrder(s.tasks, order) && Sane(s.tasks, s.budget) && s.tasks != map[]
    requires Estimate(s.tasks, ids) <= s.budget
    ensures
      var m, greedy := Rebalanced(s, ids, order).tasks, Allocate(s.tasks, order, s.budget).0;
      && m.Keys == s.tasks.Keys && (forall id :: id in m ==> !m[id].throttled)
      && forall id :: id in s.tasks && s.tasks[id].enabled ==> id in greedy && greedy[id] == m[id]
  {
    OrderIsDistinct(s.tasks, order);
    EstimateOfEnabled(s.tasks, ids);
    EnabledDistinct(s.tasks, ids);
    EstimateSame(s.tasks, EnabledOf(s.tasks, ids), order);
    BranchesAgree(s.tasks, order, s.budget);
  }

  lemma NotEmptyWhenCostly(s: Scheduler, ids: seq<int>)
    requires Enumerates(s.tasks, ids) && Estimate(s.tasks, ids) > s.budget >= 0
    ensures s.tasks != map[]
  {
    if ids != [] {
      assert ids[0] in ids;
    }
  }

  // ---------- the scheduler object ----------

  /** A walk over the hash map, in whatever order it happens to yield. */
  method Enumerate(tasks: Tasks) returns (ids: seq<int>)
    ensures Enumerates(tasks, ids)
  {
    ids := [];
    var todo: set<int> := tasks.Keys;
    while todo != {}
      invariant todo <= tasks.Keys && Distinct(ids)
      invariant forall id :: id in ids <==> id in tasks.Keys && id !in todo
      decreases todo
    {
      SomeMember(todo);
      var id :| id in todo;
      DistinctSnoc(ids, id);
      ids := ids + [id];
      todo := todo - {id};
    }
  }

  lemma DistinctSnoc(ids: seq<int>, id: int)
    requires Distinct(ids) && id !in ids
    ensures Distinct(ids + [id])
  {
    var all := ids + [id];
    forall i, j | 0 <= i < j < |all| ensures all[i] != all[j] {
      assert all[i] == ids[i] && ids[i] in ids;
    }
  }

  ghost predicate Ascending(tasks: Tasks, order: seq<int>) {
    forall i, j :: 0 <= i < j < |order| ==> Before(tasks, order[i], order[j])
  }

  method InsertId(tasks: Tasks, order: seq<int>, id: int) returns (r: seq<int>)
    requires Ascending(tasks, order) && id in tasks && id !in order && forall x :: x in order ==> x in tasks
    ensures Ascending(tasks, r) && forall x :: x in r <==> x in order || x == id
  {
    var k := 0;
    while k < |order| && Before(tasks, order[k], id)
      invariant 0 <= k <= |order| && forall i :: 0 <= i < k ==> Before(tasks, order[i], id)
    {
      k := k + 1;
    }
    r := order[..k] + [id] + order[k..];
    InsertedAscending(tasks, order, id, k);
  }

  lemma InsertedAscending(tasks: Tasks, order: seq<int>, id: int, k: nat)
    requires Ascending(tasks, order) && id in tasks && id !in order && k <= |order|
    requires forall x :: x in order ==> x in tasks
    requires forall i :: 0 <= i < k ==> Before(tasks, order[i], id)
    requires k < |order| ==> !Before(tasks, order[k], id)
    ensures Ascending(tasks, order[..k] + [id] + order[k..])
    ensures forall x :: x in order[..k] + [id] + order[k..] <==> x in order || x == id
  {
    var r := order[..k] + [id] + order[k..];
    assert order == order[..k] + order[k..];
    if k < |order| {
      var y := order[k];
      assert y in order;
      assert Before(tasks, id, y);
    }
    forall i, j | 0 <= i < j < |r| ensures Before(tasks, r[i], r[j]) {
      if i < k && j > k {
        assert r[i] == order[i] && r[j] == order[j - 1];
      } else if j > k {
        assert r[j] == order[j - 1];
        if i > k {
          assert r[i] == order[i - 1];
        } else if j - 1 > k {
          assert Before(tasks, order[k], order[j - 1]);
        }
      }
    }
  }

  method ComputeSchedulingOrder(tasks: Tasks) returns (order: seq<int>)
    ensures IsOrder(tasks, order)
  {
    var ids := Enumerate(tasks);
    order := [];
    for i := 0 to |ids|
      invariant Ascending(tasks, order)
      invariant forall x :: x in order <==> x in ids[..i] && x in tasks && tasks[x].enabled
    {
      hide Before;
      var id := ids[i];
      assert id in ids;
      assert ids[..i + 1] == ids[..i] + [id];
      assert id !in ids[..i];
      if tasks[id].enabled {
        order := InsertId(tasks, order, id);
      }
    }
    assert ids[..|ids|] == ids;
  }

  class AnalysisScheduler {
    var tasks: Tasks
    var budget: int
    var utilization: real
    var used: int

    ghost function View(): Scheduler
      reads this
    {
      Scheduler(tasks, budget, utilization, used)
    }

    /** `ids` and `order` are the walks the run happened to take. */
    method RebalanceBudget() returns (ghost ids: seq<int>, ghost order: seq<int>)
      modifies this
      ensures Enumerates(old(tasks), ids) && IsOrder(old(tasks), order)
      ensures View() == Rebalanced(old(View()), ids, order)
    {
      var walk := Enumerate(tasks);
      var sorted := ComputeSchedulingOrder(tasks);
      ids, order := walk, sorted;
      if tasks == map[] {
        utilization, used := 0.0, 0;
        return;
      }
      var total := 0;
      for i := 0 to |walk|
        invariant total == Estimate(tasks, walk[..i]) && View() == old(View())
      {
        assert walk[..i + 1][..i] == walk[..i];
        assert walk[i] in walk;
        if tasks[walk[i]].enabled {
          total := total + AverageTime(tasks[walk[i]]) * tasks[walk[i]].targetFps;
        }
      }
      assert walk[..|walk|] == walk;
      utilization := if budget > 0 then total as real / budget as real else 0.0;
      if total > budget {
        GrantInOrder(sorted);
      } else {
        RemoveThrottling(walk);
      }
      used := 0;
    }

    /** Gives the budget out along the priority order. */
    method GrantInOrder(order: seq<int>)
      requires IsOrder(tasks, order)
      modifies this`tasks
      ensures tasks == Allocate(old(tasks), order, budget).0
    {
      OrderIsDistinct(tasks, order);
      forall k | 0 <= k < |order| ensures order[k] in tasks {
        var id := order[k];
        assert id in order;
      }
      var remaining := budget;
      for i := 0 to |order|
        invariant (tasks, remaining) == Allocate(old(tasks), order[..i], budget)
        invariant tasks.Keys == old(tasks).Keys
        invariant forall k :: i <= k < |order| ==> order[k] in old(tasks) && tasks[order[k]] == old(tasks)[order[k]]
      {
        var id := order[i];
        assert order[..i + 1][..i] == order[..i];
        var state := tasks[id];
        var needed := AverageTime(state) * state.targetFps;
        assert needed == Needed(state);
        if remaining >= needed {
          tasks := tasks[id := WithFps(state, false, state.targetFps)];
          remaining := remaining - needed;
        } else if remaining > 0 && AverageTime(state) > 0 {
          var achievable := remaining / AverageTime(state);
          if achievable < 1 {
            achievable := 1;
          }
          tasks := tasks[id := WithFps(state, true, achievable)];
          remaining := 0;
        } else {
          tasks := tasks[id := WithFps(state, true, 1)];
        }
      }
      assert order[..|order|] == order;
    }

    method RemoveThrottling(walk: seq<int>)
      requires Enumerates(tasks, walk)
      modifies this`tasks
      ensures tasks == map id | id in old(tasks) :: Unthrottled(old(tasks)[id])
    {
      ghost var target := map id | id in tasks :: Unthrottled(tasks[id]);
      for i := 0 to |walk|
        invariant tasks.Keys == old(tasks).Keys
        invariant forall id :: id in walk[..i] ==> id in tasks && tasks[id] == Unthrottled(old(tasks)[id])
        invariant forall id :: id in old(tasks) && id !in walk[..i] ==> tasks[id] == old(tasks)[id]
      {
        var id := walk[i];
        assert id in walk;
        assert walk[..i + 1] == walk[..i] + [id];
        assert id !in walk[..i];
        tasks := tasks[id := WithFps(tasks[id], false, tasks[id].targetFps)];
      }
      assert walk[..|walk|] == walk;
      forall id | id in target ensures id in tasks && tasks[id] == target[id] {
        assert id in walk;
      }
      assert tasks.Keys == target.Keys;
      assert tasks == target;
    }
  }
}
