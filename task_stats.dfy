/**
 * The summary of `get_stats` (main.py:197-220): counts by completion and by
 * priority over every stored record, and the completion rate.
 */
module TaskStats {
  import opened Wrappers
  import opened Tasks
  import TaskList

  /** `priority_breakdown`: how many records carry each priority. */
  datatype Breakdown = Breakdown(low: nat, medium: nat, high: nat)

  /** The summary object; `completionRate` is a percentage. */
  datatype Summary = Summary(
    totalTasks: nat,
    completedTasks: nat,
    pendingTasks: int,
    completionRate: real,
    breakdown: Breakdown)

  /** `sum(1 for task in ... if task.completed)`. */
  function CountCompleted(s: seq<Task>): (r: nat)
    ensures r <= |s|
  {
    if s == [] then 0 else (if s[0].completed then 1 else 0) + CountCompleted(s[1..])
  }

  /** `sum(1 for task in ... if task.priority == name)`: a null priority counts nowhere. */
  function CountPriority(s: seq<Task>, p: Priority): (r: nat)
    ensures r <= |s|
  {
    if s == [] then 0 else (if s[0].priority == Some(p) then 1 else 0) + CountPriority(s[1..], p)
  }

  /** `completed / total * 100`, or 0 for an empty store (no division by zero). */
  function Rate(completed: nat, total: nat): (r: real)
    ensures total == 0 ==> r == 0.0
    ensures total > 0 ==> r * (total as real) == (completed as real) * 100.0
  {
    if total > 0 then (completed as real) * 100.0 / (total as real) else 0.0
  }

  /** `get_stats` over the stored records. */
  function Stats(s: seq<Task>): (r: Summary)
    ensures r.totalTasks == |s| && r.completedTasks <= r.totalTasks
    ensures r.pendingTasks == r.totalTasks - r.completedTasks
  {
    var total := |s|;
    var completed := CountCompleted(s);
    Summary(total, completed, total - completed, Rate(completed, total),
            Breakdown(CountPriority(s, Low), CountPriority(s, Medium), CountPriority(s, High)))
  }

  /** The records with a priority are counted once each across the three buckets. */
  lemma {:induction false} BreakdownBound(s: seq<Task>)
    ensures CountPriority(s, Low) + CountPriority(s, Medium) + CountPriority(s, High) <= |s|
    ensures CountPriority(s, Low) + CountPriority(s, Medium) + CountPriority(s, High) == |s|
            <==> forall t :: t in s ==> t.priority.Some?
  {
    if s != [] {
      BreakdownBound(s[1..]);
      assert s == [s[0]] + s[1..];
      assert (forall t :: t in s ==> t.priority.Some?)
        <==> s[0].priority.Some? && (forall t :: t in s[1..] ==> t.priority.Some?);
      var h := s[0].priority;
      if h.Some? { assert h == Some(h.value); match h.value { case Low => case Medium => case High => } }
      assert (if h == Some(Low) then 1 else 0) + (if h == Some(Medium) then 1 else 0) + (if h == Some(High) then 1 else 0)
        == if h.Some? then 1 else 0;
    }
  }

  /** No more records are completed than exist. */
  lemma {:induction false} CompletedBound(s: seq<Task>)
    ensures CountCompleted(s) <= |s|
    ensures CountCompleted(s) == |s| <==> forall t :: t in s ==> t.completed
    ensures CountCompleted(s) == 0 <==> forall t :: t in s ==> !t.completed
  {
    if s != [] {
      CompletedBound(s[1..]);
      assert s == [s[0]] + s[1..];
    }
  }

  /** The completion rate lies between 0 and 100; it is 100 exactly when every record of a non-empty store is done. */
  lemma RateBounds(completed: nat, total: nat)
    requires completed <= total
    ensures 0.0 <= Rate(completed, total) <= 100.0
    ensures Rate(completed, total) == 0.0 <==> completed == 0
    ensures Rate(completed, total) == 100.0 <==> total > 0 && completed == total
  {
    if total > 0 {
      var c, n := completed as real, total as real;
      assert c * 100.0 <= n * 100.0;
      assert c * 100.0 / n <= 100.0;
      if c * 100.0 / n == 100.0 {
        assert c * 100.0 == 100.0 * n;
      }
    }
  }

  /** The invariants of the summary: bounded counts, pending as the complement, a safe rate. */
  lemma StatsInvariants(s: seq<Task>)
    ensures Stats(s).completedTasks <= Stats(s).totalTasks
    ensures Stats(s).pendingTasks == Stats(s).totalTasks - Stats(s).completedTasks >= 0
    ensures Stats(s).breakdown.low + Stats(s).breakdown.medium + Stats(s).breakdown.high <= Stats(s).totalTasks
    ensures 0.0 <= Stats(s).completionRate <= 100.0
    ensures s == [] ==> Stats(s).totalTasks == 0 && Stats(s).completionRate == 0.0
  {
    CompletedBound(s);
    BreakdownBound(s);
    RateBounds(CountCompleted(s), |s|);
  }

  /** Counting the completed records agrees with listing them by the `completed=true` filter. */
  lemma {:induction false} CountCompletedIsListed(s: seq<Task>)
    ensures CountCompleted(s) == |TaskList.WithCompleted(s, true)|
  {
    if s != [] {
      CountCompletedIsListed(s[1..]);
    }
  }

  /** Each priority count agrees with listing by that priority's name. */
  lemma {:induction false} CountPriorityIsListed(s: seq<Task>, p: Priority)
    ensures CountPriority(s, p) == |TaskList.WithPriority(s, PriorityName(p))|
  {
    if s != [] {
      CountPriorityIsListed(s[1..], p);
      if s[0].priority.Some? {
        PriorityNameInjective(s[0].priority.value, p);
      }
    }
  }

  /** A record appended to the store adds one to the total and to the counts that describe it. */
  lemma {:induction false} StatsAppend(s: seq<Task>, t: Task)
    ensures Stats(s + [t]).totalTasks == Stats(s).totalTasks + 1
    ensures Stats(s + [t]).completedTasks == Stats(s).completedTasks + (if t.completed then 1 else 0)
    ensures CountPriority(s + [t], Low) == CountPriority(s, Low) + (if t.priority == Some(Low) then 1 else 0)
    ensures CountPriority(s + [t], Medium) == CountPriority(s, Medium) + (if t.priority == Some(Medium) then 1 else 0)
    ensures CountPriority(s + [t], High) == CountPriority(s, High) + (if t.priority == Some(High) then 1 else 0)
    decreases |s|
  {
    if s == [] {
      assert s + [t] == [t];
    } else {
      StatsAppend(s[1..], t);
      assert (s + [t])[1..] == s[1..] + [t];
    }
  }

  /** Task A (high, pending) and task B (low, done): two tasks, one done, rate 50, breakdown 1/0/1. */
  lemma TwoTaskScenario(a: Task, b: Task)
    requires a.priority == Some(High) && !a.completed
    requires b.priority == Some(Low) && b.completed
    ensures Stats([a, b]) == Summary(2, 1, 1, 50.0, Breakdown(1, 0, 1))
  {
    assert [a, b][1..] == [b] && [b][1..] == [];
    assert CountCompleted([b]) == 1;
    assert CountPriority([b], Low) == 1 && CountPriority([b], Medium) == 0 && CountPriority([b], High) == 0;
    assert Rate(1, 2) == 50.0;
  }
}
