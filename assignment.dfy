/**
 * Solving the project plan for one scenario: the program is built from the
 * instance's tables, and the solver's answer is an optimal point of it. The
 * optimal project times of the three scenarios are established by a
 * certificate each: a chain of tasks as long as the optimum (no schedule can
 * finish earlier) and a feasible schedule that finishes at it.
 */
module Assignment {
  import opened Wrappers
  import opened Network
  import opened Formulation
  import opened Earliest
  import opened ProjectData

  /** What the solver hands back: a start time per task and the total project time. */
  datatype Solution = Solution(starts: map<Task, int>, total: int)

  /** Every scenario of the table can be solved by the earliest-start schedule. */
  lemma InstanceSolvable(scenario: Scenario)
    requires scenario in DurationTable
    ensures Solvable(Instance, DurationTable[scenario])
  {
    InstanceOrdered();
    DurationsPositive(scenario);
  }

  /** In every scenario the tasks that the earliest-start schedule starts at 0 are exactly A and B. */
  lemma SourcesStartAtZero(scenario: Scenario)
    requires scenario in DurationTable
    ensures Solvable(Instance, DurationTable[scenario])
    ensures forall t :: t in Tasks ==> (EarliestStart(Instance, DurationTable[scenario], t) == 0 <==> t == A || t == B)
  {
    InstanceSolvable(scenario);
    DurationsPositive(scenario);
    forall t | t in Tasks ensures EarliestStart(Instance, DurationTable[scenario], t) == 0 <==> t == A || t == B {
      StartsAtZeroIffSource(Instance, DurationTable[scenario], t);
      SourcesAreAAndB(t);
    }
  }

  /** The critical path of all three scenarios. */
  const Critical: seq<Task> := [A, D1, D3, D4, D6, D7, D8, F, H]

  /** The critical path is a chain of the precedence graph. */
  lemma CriticalIsChain()
    ensures IsChain(Instance, Critical)
  {
    forall k | 0 < k < |Critical| ensures ListedEdge(Critical[k - 1], Critical[k]) {
      match k
      case 1 => case 2 => case 3 => case 4 => case 5 => case 6 => case 7 => case 8 =>
    }
    ListedChain(Critical);
  }

  /** A list of tasks of the task list, each listed as a predecessor of the next, is a chain. */
  lemma ListedChain(path: seq<Task>)
    requires |path| > 0 && forall k :: 0 <= k < |path| ==> path[k] in Tasks
    requires forall k :: 0 < k < |path| ==> ListedEdge(path[k - 1], path[k])
    ensures IsChain(Instance, path)
  {
    forall k | 0 < k < |path| ensures IsEdge(Precedences, path[k - 1], path[k]) {
      InstanceEdges(path[k - 1], path[k]);
    }
  }

  lemma ListedFeasible(dur: Durations, s: map<Task, int>, c: int)
    requires forall t :: t in dur
    requires forall t :: t in Tasks ==> t in s && s[t] >= 0
    requires forall p, t :: ListedEdge(p, t) ==> p in s && t in s && s[t] >= s[p] + dur[p]
    requires c >= 0 && H in s && c >= s[H] + dur[H]
    ensures Timed(Instance, dur) && FinalTask in dur
    ensures Feasible(Instance, dur, s, c)
  {
    forall p, t | IsEdge(Precedences, p, t) ensures p in s && t in s && s[t] >= s[p] + dur[p] {
      InstanceEdges(p, t);
    }
  }

  const BestStarts: map<Task, int> := map[
    A := 0, B := 0, C := 10, D1 := 10, D2 := 30, D3 := 30, D4 := 70, D5 := 115,
    D6 := 115, D7 := 130, D8 := 145, E := 18, F := 155, G := 155, H := 163]

  const ExpectedStarts: map<Task, int> := map[
    A := 0, B := 0, C := 15, D1 := 15, D2 := 40, D3 := 40, D4 := 90, D5 := 145,
    D6 := 145, D7 := 165, D8 := 183, E := 27, F := 195, G := 195, H := 205]

  const WorstStarts: map<Task, int> := map[
    A := 0, B := 0, C := 20, D1 := 20, D2 := 55, D3 := 55, D4 := 125, D5 := 200,
    D6 := 200, D7 := 230, D8 := 255, E := 36, F := 270, G := 270, H := 286]

  /** The best-case schedule meets every constraint and completes at 166. */
  lemma BestFeasible()
    ensures Timed(Instance, Best) && FinalTask in Best
    ensures Feasible(Instance, Best, BestStarts, 166)
  {
    BestComplete();
    forall p, t | ListedEdge(p, t) ensures p in BestStarts && t in BestStarts && BestStarts[t] >= BestStarts[p] + Best[p] {
      BestEdge(p, t);
    }
    ListedFeasible(Best, BestStarts, 166);
  }

  /** Each edge of the best-case schedule is respected. */
  lemma BestEdge(p: Task, t: Task)
    requires ListedEdge(p, t)
    ensures p in BestStarts && t in BestStarts && BestStarts[t] >= BestStarts[p] + Best[p]
  {
    match t
    case A => case B => case C => case D => case D1 => case D2 => case D3 => case D4 =>
    case D5 => case D6 => case D7 => case D8 => case E => case F => case G => case H =>
  }

  /** The expected-case schedule meets every constraint and completes at 210. */
  lemma ExpectedFeasible()
    ensures Timed(Instance, Expected) && FinalTask in Expected
    ensures Feasible(Instance, Expected, ExpectedStarts, 210)
  {
    ExpectedComplete();
    forall p, t | ListedEdge(p, t) ensures p in ExpectedStarts && t in ExpectedStarts && ExpectedStarts[t] >= ExpectedStarts[p] + Expected[p] {
      ExpectedEdge(p, t);
    }
    ListedFeasible(Expected, ExpectedStarts, 210);
  }

  /** Each edge of the expected-case schedule is respected. */
  lemma ExpectedEdge(p: Task, t: Task)
    requires ListedEdge(p, t)
    ensures p in ExpectedStarts && t in ExpectedStarts && ExpectedStarts[t] >= ExpectedStarts[p] + Expected[p]
  {
    match t
    case A => case B => case C => case D => case D1 => case D2 => case D3 => case D4 =>
    case D5 => case D6 => case D7 => case D8 => case E => case F => case G => case H =>
  }

  /** The worst-case schedule meets every constraint and completes at 293. */
  lemma WorstFeasible()
    ensures Timed(Instance, Worst) && FinalTask in Worst
    ensures Feasible(Instance, Worst, WorstStarts, 293)
  {
    WorstComplete();
    forall p, t | ListedEdge(p, t) ensures p in WorstStarts && t in WorstStarts && WorstStarts[t] >= WorstStarts[p] + Worst[p] {
      WorstEdge(p, t);
    }
    ListedFeasible(Worst, WorstStarts, 293);
  }

  /** Each edge of the worst-case schedule is respected. */
  lemma WorstEdge(p: Task, t: Task)
    requires ListedEdge(p, t)
    ensures p in WorstStarts && t in WorstStarts && WorstStarts[t] >= WorstStarts[p] + Worst[p]
  {
    match t
    case A => case B => case C => case D => case D1 => case D2 => case D3 => case D4 =>
    case D5 => case D6 => case D7 => case D8 => case E => case F => case G => case H =>
  }

  /** The length of the critical path is the total duration of its nine tasks. */
  lemma CriticalLength(dur: Durations)
    requires forall t :: t in dur
    ensures PathLength(dur, Critical)
      == dur[A] + dur[D1] + dur[D3] + dur[D4] + dur[D6] + dur[D7] + dur[D8] + dur[F] + dur[H]
  {
    PathLengthSnoc(dur, [], A);
    assert [] + [A] == [A];
    PathLengthSnoc(dur, [A], D1);
    assert [A] + [D1] == [A, D1];
    PathLengthSnoc(dur, [A, D1], D3);
    assert [A, D1] + [D3] == [A, D1, D3];
    PathLengthSnoc(dur, [A, D1, D3], D4);
    assert [A, D1, D3] + [D4] == [A, D1, D3, D4];
    PathLengthSnoc(dur, [A, D1, D3, D4], D6);
    assert [A, D1, D3, D4] + [D6] == [A, D1, D3, D4, D6];
    PathLengthSnoc(dur, [A, D1, D3, D4, D6], D7);
    assert [A, D1, D3, D4, D6] + [D7] == [A, D1, D3, D4, D6, D7];
    PathLengthSnoc(dur, [A, D1, D3, D4, D6, D7], D8);
    assert [A, D1, D3, D4, D6, D7] + [D8] == [A, D1, D3, D4, D6, D7, D8];
    PathLengthSnoc(dur, [A, D1, D3, D4, D6, D7, D8], F);
    assert [A, D1, D3, D4, D6, D7, D8] + [F] == [A, D1, D3, D4, D6, D7, D8, F];
    PathLengthSnoc(dur, [A, D1, D3, D4, D6, D7, D8, F], H);
    assert [A, D1, D3, D4, D6, D7, D8, F] + [H] == [A, D1, D3, D4, D6, D7, D8, F, H];
  }

  /** The critical path takes 166 in the best case, 210 in the expected case and 293 in the worst case. */
  lemma CriticalLengths()
    ensures forall t :: t in Critical ==> t in Best && t in Expected && t in Worst
    ensures PathLength(Best, Critical) == 166
    ensures PathLength(Expected, Critical) == 210
    ensures PathLength(Worst, Critical) == 293
  {
    BestComplete();
    ExpectedComplete();
    WorstComplete();
    CriticalLength(Best);
    CriticalLength(Expected);
    CriticalLength(Worst);
  }

  /** The optimal project time of the best case is 166. */
  lemma BestMakespan()
    ensures Solvable(Instance, Best) && Makespan(Instance, Best) == 166
  {
    InstanceOrdered();
    BestFeasible();
    CriticalIsChain();
    CriticalLengths();
    MakespanCertified(Instance, Best, Critical, BestStarts, 166);
  }

  /** The optimal project time of the expected case is 210. */
  lemma ExpectedMakespan()
    ensures Solvable(Instance, Expected) && Makespan(Instance, Expected) == 210
  {
    InstanceOrdered();
    ExpectedFeasible();
    CriticalIsChain();
    CriticalLengths();
    MakespanCertified(Instance, Expected, Critical, ExpectedStarts, 210);
  }

  /** The optimal project time of the worst case is 293. */
  lemma WorstMakespan()
    ensures Solvable(Instance, Worst) && Makespan(Instance, Worst) == 293
  {
    InstanceOrdered();
    WorstFeasible();
    CriticalIsChain();
    CriticalLengths();
    MakespanCertified(Instance, Worst, Critical, WorstStarts, 293);
  }

  /** The optimal project time of each scenario of the table. */
  lemma ScenarioMakespans(scenario: Scenario)
    requires scenario in DurationTable
    ensures Solvable(Instance, DurationTable[scenario])
    ensures scenario == "best" ==> Makespan(Instance, DurationTable[scenario]) == 166
    ensures scenario == "expected" ==> Makespan(Instance, DurationTable[scenario]) == 210
    ensures scenario == "worst" ==> Makespan(Instance, DurationTable[scenario]) == 293
  {
    InstanceSolvable(scenario);
    if scenario == "best" {
      assert DurationTable[scenario] == Best;
      BestMakespan();
    } else if scenario == "expected" {
      assert DurationTable[scenario] == Expected;
      ExpectedMakespan();
    } else if scenario == "worst" {
      assert DurationTable[scenario] == Worst;
      WorstMakespan();
    }
  }

  /** In every scenario the earliest-start schedule, with the makespan as completion, is an optimal point. */
  lemma ScheduleOptimal(scenario: Scenario)
    requires scenario in DurationTable
    ensures Solvable(Instance, DurationTable[scenario])
    ensures Optimal(Program(Instance, DurationTable[scenario]),
                    Schedule(Instance, DurationTable[scenario]), Makespan(Instance, DurationTable[scenario]))
  {
    InstanceSolvable(scenario);
    EarliestOptimal(Instance, DurationTable[scenario]);
  }

  /**
   * Every task named in an edge and the final task have start variables, and
   * every task label has a duration in every scenario: the only lookup that
   * can fail is that of the scenario itself.
   */
  lemma OnlyScenarioMissing(err: KeyError, scenario: Scenario)
    requires Missing(err, Instance, DurationTable, scenario)
    ensures err == NoScenario(scenario)
  {
    match err
    case NoStartVariable(t) =>
      if p :| IsEdge(Precedences, p, t) {
        EdgeTasksListed(p, t);
      } else if u :| IsEdge(Precedences, t, u) {
        EdgeTasksListed(t, u);
      }
    case NoScenario(_) =>
    case NoDuration(_) =>
      DurationsPositive(scenario);
  }

  /**
   * Solves the program built for `scenario` and reads off the start time of
   * every task of the list and the objective. The solver is represented by the
   * earliest-start schedule, which is an optimal point; every optimal point
   * has the same objective.
   */
  method Solve(scenario: Scenario, lp: LinearProgram) returns (solution: Solution)
    requires scenario in DurationTable && Timed(Instance, DurationTable[scenario]) && FinalTask in DurationTable[scenario]
    requires lp == Program(Instance, DurationTable[scenario])
    ensures Optimal(lp, solution.starts, solution.total)
    ensures forall t :: t in solution.starts <==> t in Tasks
    ensures FinalTask in solution.starts && solution.total == solution.starts[FinalTask] + DurationTable[scenario][FinalTask]
    ensures scenario == "best" ==> solution.total == 166
    ensures scenario == "expected" ==> solution.total == 210
    ensures scenario == "worst" ==> solution.total == 293
  {
    ScenarioMakespans(scenario);
    ScheduleOptimal(scenario);
    var dur := DurationTable[scenario];
    solution := Solution(Schedule(Instance, dur), Makespan(Instance, dur));
  }

  /**
   * Builds the program for `scenario` and solves it. The answer is an optimal
   * point: the start time of every task of the list and the minimised
   * completion time. A scenario missing from the duration table is the one
   * lookup that can fail.
   */
  method SolveProjectPlan(scenario: Scenario) returns (r: Result<Solution, KeyError>)
    ensures r.Success? <==> scenario in DurationTable
    ensures r.Failure? ==> r.error == NoScenario(scenario)
    ensures r.Success? ==> Solvable(Instance, DurationTable[scenario])
    ensures r.Success? ==> Optimal(Program(Instance, DurationTable[scenario]), r.value.starts, r.value.total)
    ensures r.Success? ==> forall t :: t in r.value.starts <==> t in Tasks
    ensures r.Success? ==> FinalTask in r.value.starts
    ensures r.Success? ==> r.value.total == r.value.starts[FinalTask] + DurationTable[scenario][FinalTask]
    ensures r.Success? && scenario == "best" ==> r.value.total == 166
    ensures r.Success? && scenario == "expected" ==> r.value.total == 210
    ensures r.Success? && scenario == "worst" ==> r.value.total == 293
  {
    InstanceFormulable(scenario);
    var model := BuildModel(Instance, DurationTable, scenario);
    if model.Failure? {
      OnlyScenarioMissing(model.error, scenario);
      return Failure(model.error);
    }
    InstanceSolvable(scenario);
    var solution := Solve(scenario, model.value);
    r := Success(solution);
  }
}
