/**
 * The linear program that the solver is handed: one non-negative start
 * variable per task, one non-negative completion variable, one constraint per
 * precedence edge and one terminal constraint on the final task H; the
 * objective is to minimise the completion variable.
 */
module Formulation {
  import opened Wrappers
  import opened Network

  type Scenario = string

  /** The task whose finish bounds the project completion time. */
  const FinalTask: Task := H

  /** One linear constraint of the program. */
  datatype Constraint =
    | Precedence(pred: Task, task: Task, lag: int)  // start[task] >= start[pred] + lag
    | Completion(task: Task, lag: int)              // completion >= start[task] + lag

  /**
   * A minimisation program over the start variables `variables` (each bounded
   * below by 0) and the completion variable (bounded below by 0), whose
   * objective is the completion variable.
   */
  datatype LinearProgram = LinearProgram(variables: seq<Task>, constraints: seq<Constraint>)

  /** The dictionary lookup that failed while the program was being built. */
  datatype KeyError =
    | NoStartVariable(task: Task)        // start_times[task], task not in the task list
    | NoScenario(scenario: Scenario)     // durations[scenario], scenario not in the table
    | NoDuration(task: Task)             // durations[scenario][task], no entry for task

  /** Constraint `k` holds at the point (start times `s`, completion `c`). */
  predicate Holds(k: Constraint, s: map<Task, int>, c: int) {
    match k
    case Precedence(p, t, lag) => p in s && t in s && s[t] >= s[p] + lag
    case Completion(t, lag) => t in s && c >= s[t] + lag
  }

  /** The point (s, c) lies in the feasible region of `lp`. */
  predicate Satisfies(lp: LinearProgram, s: map<Task, int>, c: int) {
    && (forall t :: t in lp.variables ==> t in s && s[t] >= 0)
    && c >= 0
    && (forall k :: k in lp.constraints ==> Holds(k, s, c))
  }

  /** The point (s, c) is feasible and no feasible point has a smaller objective. */
  ghost predicate Optimal(lp: LinearProgram, s: map<Task, int>, c: int) {
    && Satisfies(lp, s, c)
    && forall s': map<Task, int>, c': int :: Satisfies(lp, s', c') ==> c <= c'
  }

  /** The constraints of one item of the precedence table, one per predecessor, in order. */
  function PrecedenceConstraints(task: Task, preds: seq<Task>, dur: Durations): seq<Constraint>
    requires forall p :: p in preds ==> p in dur
  {
    if preds == [] then []
    else
      var n := |preds| - 1;
      PrecedenceConstraints(task, preds[..n], dur) + [Precedence(preds[n], task, dur[preds[n]])]
  }

  /** An item's constraints are exactly one per listed predecessor, each lagging by the predecessor's duration. */
  lemma {:induction false} PrecedenceConstraintsExact(task: Task, preds: seq<Task>, dur: Durations)
    requires forall p :: p in preds ==> p in dur
    ensures forall k :: k in PrecedenceConstraints(task, preds, dur) <==>
      k.Precedence? && k.task == task && k.pred in preds && k.lag == dur[k.pred]
  {
    if preds != [] {
      var n := |preds| - 1;
      assert forall p :: p in preds <==> p in preds[..n] || p == preds[n];
      PrecedenceConstraintsExact(task, preds[..n], dur);
    }
  }

  /** The constraints of the whole precedence table, item by item. */
  function EdgeConstraints(es: seq<Entry>, dur: Durations): seq<Constraint>
    requires forall e, p :: e in es && p in e.preds ==> p in dur
  {
    if es == [] then []
    else
      var n := |es| - 1;
      assert forall e :: e in es[..n] ==> e in es;
      EdgeConstraints(es[..n], dur) + PrecedenceConstraints(es[n].task, es[n].preds, dur)
  }

  /** The table's constraints are exactly one per edge, each lagging by the predecessor's duration. */
  lemma {:induction false} EdgeConstraintsExact(es: seq<Entry>, dur: Durations)
    requires forall e, p :: e in es && p in e.preds ==> p in dur
    ensures forall k :: k in EdgeConstraints(es, dur) <==>
      k.Precedence? && IsEdge(es, k.pred, k.task) && k.lag == dur[k.pred]
  {
    if es != [] {
      var n := |es| - 1;
      assert forall e :: e in es <==> e in es[..n] || e == es[n];
      EdgeConstraintsExact(es[..n], dur);
      PrecedenceConstraintsExact(es[n].task, es[n].preds, dur);
    }
  }

  /** The program built for one scenario's durations. */
  function Program(plan: Plan, dur: Durations): LinearProgram
    requires Timed(plan, dur) && FinalTask in dur
  {
    LinearProgram(plan.tasks, EdgeConstraints(plan.precedences, dur) + [Completion(FinalTask, dur[FinalTask])])
  }

  /**
   * The program has a start variable per task of the list, and its constraints
   * are exactly one per edge of the precedence table plus a single terminal
   * constraint, on the final task.
   */
  lemma ProgramConstraints(plan: Plan, dur: Durations)
    requires Timed(plan, dur) && FinalTask in dur
    ensures Program(plan, dur).variables == plan.tasks
    ensures forall k :: k in Program(plan, dur).constraints <==>
      || k == Completion(FinalTask, dur[FinalTask])
      || (k.Precedence? && IsEdge(plan.precedences, k.pred, k.task) && k.lag == dur[k.pred])
  {
    EdgeConstraintsExact(plan.precedences, dur);
  }

  /**
   * The constraint set stated directly: starts and completion non-negative,
   * every edge p -> t delays t until p has finished, and the project completes
   * no earlier than the final task finishes.
   */
  ghost predicate Feasible(plan: Plan, dur: Durations, s: map<Task, int>, c: int)
    requires Timed(plan, dur) && FinalTask in dur
  {
    && (forall t :: t in plan.tasks ==> t in s && s[t] >= 0)
    && c >= 0
    && (forall p, t :: IsEdge(plan.precedences, p, t) ==> p in s && t in s && s[t] >= s[p] + dur[p])
    && FinalTask in s && c >= s[FinalTask] + dur[FinalTask]
  }

  /** Every lookup the program's construction makes succeeds. */
  predicate Formulable(plan: Plan, table: map<Scenario, Durations>, scenario: Scenario) {
    && scenario in table
    && (forall e :: e in plan.precedences ==> EntryFormulable(plan, table, scenario, e))
    && FinalTask in plan.tasks
    && FinalTask in table[scenario]
  }

  /**
   * `err` names a key that the construction looks up and that really is
   * missing: a start variable of a task named in an edge or of the final task,
   * the scenario, or the duration of a predecessor or of the final task.
   */
  predicate Missing(err: KeyError, plan: Plan, table: map<Scenario, Durations>, scenario: Scenario) {
    match err
    case NoStartVariable(t) =>
      && t !in plan.tasks
      && (t == FinalTask || IsSuccessor(plan.precedences, t) || IsPredecessor(plan.precedences, t))
    case NoScenario(sc) => sc == scenario && scenario !in table
    case NoDuration(t) =>
      && scenario in table && t !in table[scenario]
      && (t == FinalTask || IsPredecessor(plan.precedences, t))
  }

  /** The lookups that one item of the precedence table makes all succeed. */
  predicate EntryFormulable(plan: Plan, table: map<Scenario, Durations>, scenario: Scenario, e: Entry) {
    forall p :: p in e.preds ==> e.task in plan.tasks && p in plan.tasks && scenario in table && p in table[scenario]
  }

  /**
   * The constraint of the edge `pred -> task`, with the lookups made in the
   * order the source evaluates them: the start variable of `task`, that of
   * `pred`, the scenario's durations, the duration of `pred`.
   */
  method PrecedenceOf(plan: Plan, table: map<Scenario, Durations>, scenario: Scenario, pred: Task, task: Task)
    returns (r: Result<Constraint, KeyError>)
    requires IsEdge(plan.precedences, pred, task)
    ensures r.Success? <==> task in plan.tasks && pred in plan.tasks && scenario in table && pred in table[scenario]
    ensures r.Success? ==> r.value == Precedence(pred, task, table[scenario][pred])
    ensures r.Failure? ==> Missing(r.error, plan, table, scenario)
  {
    if task !in plan.tasks {
      assert IsSuccessor(plan.precedences, task);
      return Failure(NoStartVariable(task));
    }
    if pred !in plan.tasks {
      assert IsPredecessor(plan.precedences, pred);
      return Failure(NoStartVariable(pred));
    }
    if scenario !in table {
      return Failure(NoScenario(scenario));
    }
    if pred !in table[scenario] {
      assert IsPredecessor(plan.precedences, pred);
      return Failure(NoDuration(pred));
    }
    r := Success(Precedence(pred, task, table[scenario][pred]));
  }

  /**
   * Adds to `cs` the precedence constraints of one item of the table, one per
   * predecessor in order; a failed lookup ends the construction with that KeyError.
   */
  method AddPrecedences(plan: Plan, table: map<Scenario, Durations>, scenario: Scenario, ghost dur: Durations,
                        e: Entry, cs: seq<Constraint>)
    returns (r: Result<seq<Constraint>, KeyError>)
    requires e in plan.precedences
    requires scenario in table ==> dur == table[scenario]
    ensures r.Success? <==> EntryFormulable(plan, table, scenario, e)
    ensures r.Success? ==> r.value == cs + PrecedenceConstraints(e.task, e.preds, dur)
    ensures r.Failure? ==> Missing(r.error, plan, table, scenario)
  {
    var acc := cs;
    var j := 0;
    while j < |e.preds|
      invariant 0 <= j <= |e.preds|
      invariant j > 0 ==> e.task in plan.tasks && scenario in table
      invariant forall k :: 0 <= k < j ==> e.preds[k] in plan.tasks && e.preds[k] in dur
      invariant acc == cs + PrecedenceConstraints(e.task, e.preds[..j], dur)
    {
      assert e.preds[j] in e.preds;
      var k :- PrecedenceOf(plan, table, scenario, e.preds[j], e.task);
      assert e.preds[j] in dur && k == Precedence(e.preds[j], e.task, dur[e.preds[j]]);
      assert e.preds[..j + 1][..j] == e.preds[..j];
      acc := acc + [k];
      j := j + 1;
    }
    assert e.preds[..j] == e.preds;
    r := Success(acc);
  }

  /**
   * Adds the precedence constraints of every item of the table, item by item
   * in order; a failed lookup ends the construction with that KeyError.
   */
  method AddAllPrecedences(plan: Plan, table: map<Scenario, Durations>, scenario: Scenario, ghost dur: Durations)
    returns (r: Result<seq<Constraint>, KeyError>)
    requires scenario in table ==> dur == table[scenario]
    ensures r.Success? <==> forall e :: e in plan.precedences ==> EntryFormulable(plan, table, scenario, e)
    ensures r.Success? ==> r.value == EdgeConstraints(plan.precedences, dur)
    ensures r.Failure? ==> Missing(r.error, plan, table, scenario)
  {
    var es := plan.precedences;
    var cs: seq<Constraint> := [];
    var i := 0;
    while i < |es|
      invariant 0 <= i <= |es|
      invariant forall e :: e in es[..i] ==> EntryFormulable(plan, table, scenario, e)
      invariant cs == EdgeConstraints(es[..i], dur)
    {
      cs :- AddPrecedences(plan, table, scenario, dur, es[i], cs);
      assert es[..i + 1][..i] == es[..i];
      i := i + 1;
    }
    assert es[..i] == es;
    r := Success(cs);
  }

  /**
   * Builds the program for `scenario`: the precedence constraints of every
   * item of the table in order, then the terminal constraint on the final
   * task. A failed lookup ends the construction with that KeyError.
   */
  method BuildModel(plan: Plan, table: map<Scenario, Durations>, scenario: Scenario)
    returns (r: Result<LinearProgram, KeyError>)
    ensures r.Success? <==> Formulable(plan, table, scenario)
    ensures r.Success? ==> Timed(plan, table[scenario]) && FinalTask in table[scenario]
    ensures r.Success? ==> r.value == Program(plan, table[scenario])
    ensures r.Failure? ==> Missing(r.error, plan, table, scenario)
  {
    ghost var dur: Durations := if scenario in table then table[scenario] else map[];
    var cs :- AddAllPrecedences(plan, table, scenario, dur);
    if FinalTask !in plan.tasks {
      return Failure(NoStartVariable(FinalTask));
    }
    if scenario !in table {
      return Failure(NoScenario(scenario));
    }
    if FinalTask !in table[scenario] {
      return Failure(NoDuration(FinalTask));
    }
    r := Success(LinearProgram(plan.tasks, cs + [Completion(FinalTask, table[scenario][FinalTask])]));
  }

  /**
   * The construction succeeds exactly when the scenario is in the table, the
   * final task has a start variable and a duration, and every edge's two tasks
   * have start variables and its predecessor has a duration.
   */
  lemma FormulableByEdges(plan: Plan, table: map<Scenario, Durations>, scenario: Scenario)
    ensures Formulable(plan, table, scenario) <==>
      && scenario in table && FinalTask in plan.tasks && FinalTask in table[scenario]
      && forall p, t :: IsEdge(plan.precedences, p, t) ==> t in plan.tasks && p in plan.tasks && p in table[scenario]
  {
    if Formulable(plan, table, scenario) {
      forall p, t | IsEdge(plan.precedences, p, t) ensures t in plan.tasks && p in plan.tasks && p in table[scenario] {
        var e :| e in plan.precedences && e.task == t && p in e.preds;
        assert EntryFormulable(plan, table, scenario, e);
      }
    }
    if && scenario in table && FinalTask in plan.tasks && FinalTask in table[scenario]
       && forall p, t :: IsEdge(plan.precedences, p, t) ==> t in plan.tasks && p in plan.tasks && p in table[scenario]
    {
      forall e | e in plan.precedences ensures EntryFormulable(plan, table, scenario, e) {
        forall p | p in e.preds ensures e.task in plan.tasks && p in plan.tasks && p in table[scenario] {
          assert IsEdge(plan.precedences, p, e.task);
        }
      }
    }
  }

  /** The program's feasible region is exactly the constraint set of `Feasible`. */
  lemma FormulationExact(plan: Plan, dur: Durations, s: map<Task, int>, c: int)
    requires Timed(plan, dur) && FinalTask in dur
    ensures Satisfies(Program(plan, dur), s, c) <==> Feasible(plan, dur, s, c)
  {
    EdgeConstraintsExact(plan.precedences, dur);
    var lp := Program(plan, dur);
    var last := Completion(FinalTask, dur[FinalTask]);
    assert last in lp.constraints;
    if Satisfies(lp, s, c) {
      forall p, t | IsEdge(plan.precedences, p, t) ensures p in s && t in s && s[t] >= s[p] + dur[p] {
        assert Holds(Precedence(p, t, dur[p]), s, c);
      }
    }
    if Feasible(plan, dur, s, c) {
      forall k | k in lp.constraints ensures Holds(k, s, c) {
        if k != last {
          assert k in EdgeConstraints(plan.precedences, dur);
        }
      }
    }
  }

  /** Along a chain of a feasible schedule, the last task starts no earlier than the first plus the chain's positive delays. */
  lemma {:induction false} ChainDelays(plan: Plan, dur: Durations, s: map<Task, int>, c: int, path: seq<Task>)
    requires Timed(plan, dur) && FinalTask in dur && Feasible(plan, dur, s, c)
    requires IsChain(plan, path) && |path| >= 2
    requires forall k :: 0 <= k < |path| - 1 ==> path[k] in dur && dur[path[k]] > 0
    ensures path[0] in s && path[|path| - 1] in s
    ensures s[path[|path| - 1]] > s[path[0]]
  {
    var n := |path|;
    assert IsEdge(plan.precedences, path[n - 2], path[n - 1]);
    if n > 2 {
      ChainFront(plan, path);
      ChainDelays(plan, dur, s, c, path[..n - 1]);
    }
  }

  /**
   * A precedence cycle whose tasks all take positive time admits no feasible
   * schedule: the program built from such a table is infeasible.
   */
  lemma CycleIsInfeasible(plan: Plan, dur: Durations, path: seq<Task>, s: map<Task, int>, c: int)
    requires Timed(plan, dur) && FinalTask in dur
    requires IsChain(plan, path) && |path| >= 2 && path[0] == path[|path| - 1]
    requires forall k :: 0 <= k < |path| - 1 ==> path[k] in dur && dur[path[k]] > 0
    ensures !Satisfies(Program(plan, dur), s, c)
  {
    FormulationExact(plan, dur, s, c);
    if Feasible(plan, dur, s, c) {
      ChainDelays(plan, dur, s, c, path);
    }
  }
}
