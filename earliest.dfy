/**
 * The earliest-start schedule of an acyclic precedence table, computed as a
 * longest-path traversal, and the proof that it is an optimal point of the
 * linear program: it is feasible, and every feasible point starts each task,
 * and completes the project, no earlier. Hence the minimised objective is the
 * finish of the final task in this schedule, the length of the longest chain
 * of tasks ending at the final task.
 */
module Earliest {
  import opened Network
  import opened Formulation

  /**
   * The earliest time task `t` can start: 0 when it has no predecessor,
   * otherwise the latest finish of its predecessors (never below 0, the start
   * variables' lower bound).
   */
  function EarliestStart(plan: Plan, dur: Durations, t: Task): (s: int)
    requires Ordered(plan) && Timed(plan, dur) && t in plan.tasks
    ensures s >= 0
    decreases IndexOf(plan.tasks, t), 1, 0
  {
    PredsGoForward(plan, dur, t);
    LatestFinish(plan, dur, t, PredsOf(plan.precedences, t))
  }

  /** The latest earliest-finish among the predecessors `ps` of `t`, or 0 when there are none. */
  function LatestFinish(plan: Plan, dur: Durations, t: Task, ps: seq<Task>): (f: int)
    requires Ordered(plan) && Timed(plan, dur) && t in plan.tasks
    requires forall p :: p in ps ==>
      p in plan.tasks && p in dur && IndexOf(plan.tasks, p) < IndexOf(plan.tasks, t) && IsEdge(plan.precedences, p, t)
    ensures f >= 0
    ensures forall p :: p in ps ==> f >= EarliestStart(plan, dur, p) + dur[p]
    decreases IndexOf(plan.tasks, t), 0, |ps|
  {
    if ps == [] then 0
    else
      assert ps[0] in ps;
      var rest := LatestFinish(plan, dur, t, ps[1..]);
      var here := EarliestStart(plan, dur, ps[0]) + dur[ps[0]];
      if here > rest then here else rest
  }

  /**
   * The program can be solved by the earliest-start schedule: the task list is
   * a topological order, every predecessor and the final task have a duration,
   * and the final task does not take negative time.
   */
  ghost predicate Solvable(plan: Plan, dur: Durations) {
    && Ordered(plan) && Timed(plan, dur)
    && FinalTask in plan.tasks && FinalTask in dur && dur[FinalTask] >= 0
  }

  /** The earliest-start schedule: one entry per task of the task list. */
  function Schedule(plan: Plan, dur: Durations): (s: map<Task, int>)
    requires Ordered(plan) && Timed(plan, dur)
    ensures forall t :: t in s <==> t in plan.tasks
  {
    map t | t in plan.tasks :: EarliestStart(plan, dur, t)
  }

  /** The finish of the final task in the earliest-start schedule. */
  function Makespan(plan: Plan, dur: Durations): int
    requires Solvable(plan, dur)
  {
    EarliestStart(plan, dur, FinalTask) + dur[FinalTask]
  }

  /** The earliest start of a task is no earlier than the finish of each of its predecessors. */
  lemma EarliestRespectsEdge(plan: Plan, dur: Durations, p: Task, t: Task)
    requires Ordered(plan) && Timed(plan, dur) && IsEdge(plan.precedences, p, t)
    ensures p in plan.tasks && t in plan.tasks && p in dur
    ensures EarliestStart(plan, dur, t) >= EarliestStart(plan, dur, p) + dur[p]
  {
    EdgeGoesForward(plan, p, t);
    assert p in PredsOf(plan.precedences, t);
  }

  /** The earliest-start schedule, with the makespan as completion, meets every constraint. */
  lemma EarliestFeasible(plan: Plan, dur: Durations)
    requires Solvable(plan, dur)
    ensures Feasible(plan, dur, Schedule(plan, dur), Makespan(plan, dur))
  {
    var s := Schedule(plan, dur);
    forall p, t | IsEdge(plan.precedences, p, t) ensures p in s && t in s && s[t] >= s[p] + dur[p] {
      EarliestRespectsEdge(plan, dur, p, t);
    }
  }

  /** The earliest-start schedule, with the makespan as completion, is a point of the program's feasible region. */
  lemma EarliestSatisfies(plan: Plan, dur: Durations)
    requires Solvable(plan, dur)
    ensures Satisfies(Program(plan, dur), Schedule(plan, dur), Makespan(plan, dur))
  {
    EarliestFeasible(plan, dur);
    FormulationExact(plan, dur, Schedule(plan, dur), Makespan(plan, dur));
  }

  /**
   * A task with a positive earliest start has a predecessor, earlier in the
   * task list, whose earliest finish is that start.
   */
  lemma CriticalPredecessor(plan: Plan, dur: Durations, t: Task) returns (p: Task)
    requires Ordered(plan) && Timed(plan, dur) && t in plan.tasks
    requires EarliestStart(plan, dur, t) != 0
    ensures IsEdge(plan.precedences, p, t) && p in plan.tasks && p in dur
    ensures IndexOf(plan.tasks, p) < IndexOf(plan.tasks, t)
    ensures EarliestStart(plan, dur, t) == EarliestStart(plan, dur, p) + dur[p]
  {
    PredsGoForward(plan, dur, t);
    var ps := PredsOf(plan.precedences, t);
    assert EarliestStart(plan, dur, t) == LatestFinish(plan, dur, t, ps);
    p := FinishAttained(plan, dur, t, ps);
  }

  /** A positive latest finish is the earliest finish of one of the predecessors `ps`. */
  lemma {:induction false} FinishAttained(plan: Plan, dur: Durations, t: Task, ps: seq<Task>) returns (p: Task)
    requires Ordered(plan) && Timed(plan, dur) && t in plan.tasks
    requires forall p :: p in ps ==>
      p in plan.tasks && p in dur && IndexOf(plan.tasks, p) < IndexOf(plan.tasks, t) && IsEdge(plan.precedences, p, t)
    requires LatestFinish(plan, dur, t, ps) != 0
    ensures p in ps && p in plan.tasks && p in dur
    ensures LatestFinish(plan, dur, t, ps) == EarliestStart(plan, dur, p) + dur[p]
    decreases |ps|
  {
    assert ps[0] in ps;
    if LatestFinish(plan, dur, t, ps) == EarliestStart(plan, dur, ps[0]) + dur[ps[0]] {
      p := ps[0];
    } else {
      assert forall q :: q in ps[1..] ==> q in ps;
      p := FinishAttained(plan, dur, t, ps[1..]);
    }
  }

  /** Every feasible point starts each task no earlier than its earliest start. */
  lemma {:induction false} FeasibleStartBound(plan: Plan, dur: Durations, s: map<Task, int>, c: int, t: Task)
    requires Ordered(plan) && Timed(plan, dur) && FinalTask in dur
    requires Feasible(plan, dur, s, c) && t in plan.tasks
    ensures t in s && s[t] >= EarliestStart(plan, dur, t)
    decreases IndexOf(plan.tasks, t)
  {
    if EarliestStart(plan, dur, t) != 0 {
      var p := CriticalPredecessor(plan, dur, t);
      FeasibleStartBound(plan, dur, s, c, p);
    }
  }

  /** Every feasible point completes the project no earlier than the makespan. */
  lemma FeasibleCompletionBound(plan: Plan, dur: Durations, s: map<Task, int>, c: int)
    requires Solvable(plan, dur)
    requires Feasible(plan, dur, s, c)
    ensures c >= Makespan(plan, dur)
  {
    FeasibleStartBound(plan, dur, s, c, FinalTask);
  }

  /** The earliest-start schedule with the makespan is an optimal point of the program. */
  lemma EarliestOptimal(plan: Plan, dur: Durations)
    requires Solvable(plan, dur)
    ensures Optimal(Program(plan, dur), Schedule(plan, dur), Makespan(plan, dur))
  {
    EarliestSatisfies(plan, dur);
    forall s': map<Task, int>, c': int | Satisfies(Program(plan, dur), s', c')
      ensures Makespan(plan, dur) <= c'
    {
      FormulationExact(plan, dur, s', c');
      FeasibleCompletionBound(plan, dur, s', c');
    }
  }

  /**
   * Whatever optimal point the solver returns, its objective is the makespan,
   * each of its start times is at least the earliest start, the final task
   * starts exactly at its earliest start, and the project completes exactly
   * when the final task finishes.
   */
  lemma OptimumIsMakespan(plan: Plan, dur: Durations, s: map<Task, int>, c: int)
    requires Solvable(plan, dur)
    requires Optimal(Program(plan, dur), s, c)
    ensures c == Makespan(plan, dur)
    ensures forall t :: t in plan.tasks ==> t in s && s[t] >= EarliestStart(plan, dur, t)
    ensures FinalTask in s && s[FinalTask] == EarliestStart(plan, dur, FinalTask)
    ensures c == s[FinalTask] + dur[FinalTask]
  {
    FormulationExact(plan, dur, s, c);
    FeasibleCompletionBound(plan, dur, s, c);
    EarliestSatisfies(plan, dur);
    forall t | t in plan.tasks ensures t in s && s[t] >= EarliestStart(plan, dur, t) {
      FeasibleStartBound(plan, dur, s, c, t);
    }
  }

  /**
   * When every predecessor takes positive time, a task's earliest start is 0
   * exactly when it has no predecessor.
   */
  lemma StartsAtZeroIffSource(plan: Plan, dur: Durations, t: Task)
    requires Ordered(plan) && Timed(plan, dur) && t in plan.tasks
    requires forall e, p :: e in plan.precedences && p in e.preds ==> dur[p] > 0
    ensures EarliestStart(plan, dur, t) == 0 <==> PredsOf(plan.precedences, t) == []
  {
    var ps := PredsOf(plan.precedences, t);
    if ps != [] {
      assert ps[0] in ps;
      EarliestRespectsEdge(plan, dur, ps[0], t);
    }
  }

  /** Lengthening durations never brings any earliest start forward. */
  lemma {:induction false} EarliestMonotone(plan: Plan, dur: Durations, dur': Durations, t: Task)
    requires Ordered(plan) && Timed(plan, dur) && Timed(plan, dur') && t in plan.tasks
    requires forall p :: p in dur ==> p in dur' && dur[p] <= dur'[p]
    ensures EarliestStart(plan, dur, t) <= EarliestStart(plan, dur', t)
    decreases IndexOf(plan.tasks, t)
  {
    if EarliestStart(plan, dur, t) != 0 {
      var p := CriticalPredecessor(plan, dur, t);
      EarliestMonotone(plan, dur, dur', p);
      EarliestRespectsEdge(plan, dur', p, t);
    }
  }

  /** Lengthening durations never shortens the makespan. */
  lemma MakespanMonotone(plan: Plan, dur: Durations, dur': Durations)
    requires Solvable(plan, dur) && Solvable(plan, dur')
    requires forall p :: p in dur ==> p in dur' && dur[p] <= dur'[p]
    ensures Makespan(plan, dur) <= Makespan(plan, dur')
  {
    EarliestMonotone(plan, dur, dur', FinalTask);
  }

  /** The total duration of the tasks of a chain. */
  function PathLength(dur: Durations, path: seq<Task>): int
    requires forall t :: t in path ==> t in dur
  {
    if path == [] then 0
    else PathLength(dur, path[..|path| - 1]) + dur[path[|path| - 1]]
  }

  /** Appending a task to a path adds its duration to the path's length. */
  lemma PathLengthSnoc(dur: Durations, path: seq<Task>, t: Task)
    requires forall x :: x in path ==> x in dur
    requires t in dur
    ensures PathLength(dur, path + [t]) == PathLength(dur, path) + dur[t]
  {
    assert (path + [t])[..|path|] == path;
  }

  /** No chain ending at `t` is longer than the earliest finish of `t`. */
  lemma {:induction false} ChainBound(plan: Plan, dur: Durations, path: seq<Task>)
    requires Ordered(plan) && Timed(plan, dur) && IsChain(plan, path)
    requires forall t :: t in path ==> t in dur
    ensures PathLength(dur, path) <= EarliestStart(plan, dur, path[|path| - 1]) + dur[path[|path| - 1]]
  {
    var n := |path|;
    if n > 1 {
      var front := path[..n - 1];
      ChainFront(plan, path);
      ChainBound(plan, dur, front);
      EarliestRespectsEdge(plan, dur, path[n - 2], path[n - 1]);
    }
  }

  /** A chain extended by a successor of its last task is a chain, longer by the successor's duration. */
  lemma ChainExtendLength(plan: Plan, dur: Durations, path: seq<Task>, t: Task)
    requires IsChain(plan, path) && t in plan.tasks && IsEdge(plan.precedences, path[|path| - 1], t)
    requires (forall x :: x in path ==> x in dur) && t in dur
    ensures IsChain(plan, path + [t]) && (path + [t])[|path|] == t
    ensures forall x :: x in path + [t] ==> x in dur
    ensures PathLength(dur, path + [t]) == PathLength(dur, path) + dur[t]
  {
    ChainExtend(plan, path, t);
    PathLengthSnoc(dur, path, t);
  }

  /** A chain ending at `t` whose length is the earliest finish of `t`: a critical path. */
  lemma CriticalPath(plan: Plan, dur: Durations, t: Task) returns (path: seq<Task>)
    requires Ordered(plan) && Timed(plan, dur) && t in plan.tasks && t in dur
    ensures IsChain(plan, path) && path[|path| - 1] == t
    ensures forall x :: x in path ==> x in dur
    ensures PathLength(dur, path) == EarliestStart(plan, dur, t) + dur[t]
    decreases IndexOf(plan.tasks, t)
  {
    if EarliestStart(plan, dur, t) == 0 {
      path := [t];
    } else {
      var p := CriticalPredecessor(plan, dur, t);
      var front := CriticalPath(plan, dur, p);
      ChainExtendLength(plan, dur, front, t);
      path := front + [t];
    }
  }

  /**
   * The makespan is the length of the longest chain of tasks ending at the
   * final task: no chain is longer, and a critical path attains it.
   */
  lemma MakespanIsLongestChain(plan: Plan, dur: Durations)
    requires Solvable(plan, dur)
    ensures forall path ::
      IsChain(plan, path) && path[|path| - 1] == FinalTask && (forall t :: t in path ==> t in dur) ==>
      PathLength(dur, path) <= Makespan(plan, dur)
    ensures exists path ::
      && IsChain(plan, path) && path[|path| - 1] == FinalTask && (forall t :: t in path ==> t in dur)
      && PathLength(dur, path) == Makespan(plan, dur)
  {
    forall path | IsChain(plan, path) && path[|path| - 1] == FinalTask && (forall t :: t in path ==> t in dur)
      ensures PathLength(dur, path) <= Makespan(plan, dur)
    {
      ChainBound(plan, dur, path);
    }
    var critical := CriticalPath(plan, dur, FinalTask);
  }

  /**
   * A chain ending at the final task and a feasible point whose completion is
   * the chain's length certify that this length is the makespan.
   */
  lemma MakespanCertified(plan: Plan, dur: Durations, path: seq<Task>, s: map<Task, int>, c: int)
    requires Solvable(plan, dur)
    requires IsChain(plan, path) && path[|path| - 1] == FinalTask && (forall t :: t in path ==> t in dur)
    requires Feasible(plan, dur, s, c) && PathLength(dur, path) == c
    ensures Makespan(plan, dur) == c
  {
    FeasibleCompletionBound(plan, dur, s, c);
    ChainBound(plan, dur, path);
  }
}
