# Project plan: minimum project time by linear programming

This project models `solve_project_plan` of `rehmani_assignment2.py` and the tables it reads:
- the fifteen tasks `A`, `B`, `C`, `D1`..`D8`, `E`, `F`, `G`, `H`;
- a duration table with three scenarios (`best`, `expected`, `worst`);
- a precedence table mapping each task to the tasks that must finish before it starts.

For one scenario, the function builds a linear program:
- one non-negative start variable per task;
- one non-negative completion variable;
- one constraint `start[task] >= start[pred] + duration[pred]` per precedence edge;
- one terminal constraint `completion >= start[H] + duration[H]`.

It then asks a solver to minimise the completion variable, and returns the start times and the objective.

The model has five modules plus a small `Result` datatype (`Wrappers`).

- `Network` covers the task labels, the precedence table as a sequence of items in written order, and the precedence graph it defines: edges, chains and predecessor lists. `Ordered` is the acyclicity witness: every predecessor comes before its task in the task list.
- `Formulation` covers the linear program as data: constraints, `Satisfies`, `Optimal`.
  - `BuildModel` and `AddPrecedences` are the loops that add the constraints. Each dictionary lookup of the source can fail with a `KeyError`, and these methods model that failure.
  - The lemmas relate the built program to the constraint set stated directly (`Feasible`).
- `Earliest` stands in for the solver. `EarliestStart` is the longest-path (earliest-start) schedule over the acyclic graph. The lemmas prove:
  - the earliest-start schedule is feasible;
  - every feasible point starts every task no earlier than its earliest start and completes no earlier than the makespan;
  - so the earliest-start schedule is an optimal point, and every optimum has the makespan as objective;
  - the makespan is the length of the longest chain ending at `H`.
- `ProjectData` holds the instance tables and their facts:
  - every edge's tasks are in the task list;
  - the list is a topological order, so the table has no cycle;
  - `A` and `B` are the only sources and `H` is the only sink;
  - every scenario gives every task a positive duration;
  - the aggregate entry `D` is the sum of `D1`..`D8`.
- `Assignment` is `solve_project_plan` itself:
  - the program is built, and the only failing lookup is a scenario missing from the table;
  - the answer is an optimal point whose keys are exactly the tasks;
  - the optimal project times are 166 (best), 210 (expected) and 293 (worst).

  Each optimal time is certified by two things together: the critical chain `A D1 D3 D4 D6 D7 D8 F H`, and an explicit feasible schedule that completes at the chain's length.

## Model

| member | source | states |
|---|---|---|
| Network.PredsOf | rehmani_assignment2.py:25-29 | the predecessors gathered for a task are exactly the `p` with an edge `p -> t` in the precedence table |
| Network.OrderedIsAcyclic | rehmani_assignment2.py:25-29 | when the task list orders every edge forward, no chain of two or more tasks returns to its first task |
| Formulation.PrecedenceConstraintsExact | rehmani_assignment2.py:50-52 | one item's constraints are exactly one `Precedence(pred, task, dur[pred])` per listed predecessor |
| Formulation.EdgeConstraintsExact | rehmani_assignment2.py:49-52 | the table's constraints are exactly one `Precedence(p, t, dur[p])` per edge `p -> t` |
| Formulation.PrecedenceOf | rehmani_assignment2.py:52 | the constraint of an edge is produced exactly when the start variables of both tasks, the scenario and the predecessor's duration exist, and lags by that duration; otherwise the KeyError names a key that is really missing |
| Formulation.AddPrecedences | rehmani_assignment2.py:50-52 | succeeds exactly when every lookup of the item (both start variables, the scenario, the predecessor's duration) succeeds; then appends the item's constraints in order; on failure the KeyError names a key that is really missing |
| Formulation.AddAllPrecedences | rehmani_assignment2.py:49-52 | succeeds exactly when every item's lookups succeed; then returns the constraints of the whole table; on failure the KeyError names a key that is really missing |
| Formulation.BuildModel | rehmani_assignment2.py:35-55 | succeeds exactly when the program is formulable; then returns the program with one variable per task, the edge constraints and the terminal constraint on `H`; on failure the KeyError names a key that is really missing |
| Formulation.FormulableByEdges | rehmani_assignment2.py:49-55 | the construction succeeds exactly when the scenario, `H`'s start variable and duration, and for every edge both start variables and the predecessor's duration exist |
| Formulation.ProgramConstraints | rehmani_assignment2.py:38-55 | the program has a variable per task, and its constraints are exactly the edge constraints plus one terminal constraint on `H` |
| Formulation.FormulationExact | rehmani_assignment2.py:38-55 | a point satisfies the built program exactly when it meets the constraint set: non-negative starts and completion, every edge, and completion after `H` finishes |
| Formulation.ChainDelays | rehmani_assignment2.py:49-52 | in a feasible point, the last task of a chain whose tasks take positive time starts strictly after the first |
| Formulation.CycleIsInfeasible | rehmani_assignment2.py:49-52 | a precedence cycle of positive-duration tasks leaves the program without a feasible point |
| Earliest.EarliestStart | rehmani_assignment2.py:38 | the earliest start of every task is non-negative |
| Earliest.LatestFinish | rehmani_assignment2.py:49-52 | the latest predecessor finish is non-negative and no earlier than the finish of each predecessor |
| Earliest.Schedule | rehmani_assignment2.py:61 | the earliest-start schedule has an entry for exactly the tasks of the list |
| Earliest.EarliestRespectsEdge | rehmani_assignment2.py:52 | the earliest starts meet the constraint of every edge |
| Earliest.EarliestFeasible | rehmani_assignment2.py:38-55 | the earliest-start schedule with the makespan as completion meets every constraint |
| Earliest.EarliestSatisfies | rehmani_assignment2.py:38-55 | the earliest-start schedule with the makespan is a feasible point of the built program |
| Earliest.CriticalPredecessor | rehmani_assignment2.py:49-52 | a task with a positive earliest start has an earlier predecessor whose earliest finish is that start |
| Earliest.FeasibleStartBound | rehmani_assignment2.py:38-52 | every feasible point starts each task no earlier than its earliest start |
| Earliest.FeasibleCompletionBound | rehmani_assignment2.py:41-55 | every feasible point's completion is at least the makespan |
| Earliest.EarliestOptimal | rehmani_assignment2.py:44-58 | the earliest-start schedule with the makespan is an optimal point of the program: feasible, and no feasible point has a smaller objective |
| Earliest.OptimumIsMakespan | rehmani_assignment2.py:40-62 | every optimal point has the makespan as objective, starts each task no earlier than its earliest start, starts `H` exactly at its earliest start and completes exactly when `H` finishes |
| Earliest.StartsAtZeroIffSource | rehmani_assignment2.py:49-52 | when predecessors take positive time, a task's earliest start is 0 exactly when it has no predecessor |
| Earliest.EarliestMonotone | rehmani_assignment2.py:49-52 | lengthening durations never brings an earliest start forward |
| Earliest.MakespanMonotone | rehmani_assignment2.py:44-55 | lengthening durations never shortens the optimal project time |
| Earliest.ChainBound | rehmani_assignment2.py:49-52 | no chain ending at a task is longer than that task's earliest finish |
| Earliest.CriticalPath | rehmani_assignment2.py:49-52 | some chain ending at a task is exactly as long as the task's earliest finish |
| Earliest.MakespanIsLongestChain | rehmani_assignment2.py:44-55 | the optimal project time is the length of the longest chain ending at `H`: no chain is longer and one attains it |
| Earliest.MakespanCertified | rehmani_assignment2.py:44-55 | a chain ending at `H` plus a feasible point completing at the chain's length prove that length is the optimal project time |
| ProjectData.TasksDistinct | rehmani_assignment2.py:6 | the task list names no task twice |
| ProjectData.InstanceEdges | rehmani_assignment2.py:25-29 | the precedence table defines exactly the nineteen listed edges |
| ProjectData.EdgeTasksListed | rehmani_assignment2.py:6-29 | both tasks of every edge are in the task list, the predecessor earlier |
| ProjectData.InstanceOrdered | rehmani_assignment2.py:25-29 | the task list is a topological order of the precedence table, so the table has no cycle |
| ProjectData.PrecedencesUnique | rehmani_assignment2.py:25-29 | no item of the precedence table lists a predecessor twice and no task heads two items, so every constraint name of line 52 is used once |
| ProjectData.SourcesAreAAndB | rehmani_assignment2.py:25-29 | a task of the list has no predecessor exactly when it is `A` or `B` |
| ProjectData.SinkIsH | rehmani_assignment2.py:25-29 | a task of the list is no task's predecessor exactly when it is `H` |
| ProjectData.DurationsPositive | rehmani_assignment2.py:9-22 | every scenario gives every task label, `D` included, a positive duration |
| ProjectData.AggregateD | rehmani_assignment2.py:9-22 | in every scenario the duration of `D` is the sum of the durations of `D1`..`D8` |
| ProjectData.InstanceFormulable | rehmani_assignment2.py:52-55 | every lookup of the construction succeeds exactly when the scenario is in the duration table |
| Assignment.InstanceSolvable | rehmani_assignment2.py:6-29 | for every scenario of the table, the instance is ordered, every predecessor and `H` have durations, and `H`'s is non-negative |
| Assignment.SourcesStartAtZero | rehmani_assignment2.py:38 | in every scenario the earliest-start schedule starts exactly `A` and `B` at 0 |
| Assignment.CriticalIsChain | rehmani_assignment2.py:25-29 | `A D1 D3 D4 D6 D7 D8 F H` is a chain of the precedence graph |
| Assignment.CriticalLengths | rehmani_assignment2.py:9-22 | the critical chain takes 166, 210 and 293 in the best, expected and worst cases |
| Assignment.BestFeasible | rehmani_assignment2.py:49-55 | the explicit best-case schedule meets every constraint and completes at 166 |
| Assignment.ExpectedFeasible | rehmani_assignment2.py:49-55 | the explicit expected-case schedule meets every constraint and completes at 210 |
| Assignment.WorstFeasible | rehmani_assignment2.py:49-55 | the explicit worst-case schedule meets every constraint and completes at 293 |
| Assignment.BestMakespan | rehmani_assignment2.py:44-55 | the optimal best-case project time is 166 |
| Assignment.ExpectedMakespan | rehmani_assignment2.py:44-55 | the optimal expected-case project time is 210 |
| Assignment.WorstMakespan | rehmani_assignment2.py:44-55 | the optimal worst-case project time is 293 |
| Assignment.ScenarioMakespans | rehmani_assignment2.py:44-62 | for each scenario named in the table, the optimal project time is 166, 210 or 293 respectively |
| Assignment.ScheduleOptimal | rehmani_assignment2.py:44-58 | in every scenario the earliest-start schedule is an optimal point of the program built for it |
| Assignment.OnlyScenarioMissing | rehmani_assignment2.py:52-55 | on the instance tables, the only key that can be missing is the scenario |
| Assignment.Solve | rehmani_assignment2.py:58-62 | returns an optimal point of the built program, with one start per task of the list; the total is the finish of `H` in that point, and 166, 210 or 293 by scenario |
| Assignment.SolveProjectPlan | rehmani_assignment2.py:32-71 | succeeds exactly when the scenario is in the table, otherwise fails with the scenario's KeyError; on success returns an optimal point of the program, with starts for exactly the tasks, the total equal to the finish of `H`, and the optimal time per scenario |

## Left out

- The solver (`model.solve()`, line 58) is not modelled; the model uses only its contract, that it returns an optimal point. Its status (line 65) is not modelled either: the source never branches on it.
- Assignment.Solve: returns the earliest-start optimum. The solver may return another optimal point, because non-critical tasks such as `B` have slack. What holds for every optimum (same objective, each start at least the earliest start) is stated by Earliest.OptimumIsMakespan rather than by the method.
- Formulation.Optimal: compares integer-valued points only. The source's variables are continuous. The bound argument is the same for real values, and the optimum found is integral.
- `pulp.value` returns floating-point numbers (lines 61-62); the model uses integers, which every table entry is.
- Printing the plan, the status and the total (lines 64-68) is left out, as output only.
- `plot_gchart` (lines 74-95) is left out: it only draws a chart.
- The top-level script (lines 99-105) is left out: it selects `expected`, calls the two functions and has no logic of its own.
- Task names are an enumeration of the sixteen labels (the fifteen tasks and the aggregate `D`), not free strings. A precedence table naming some other string cannot be expressed. A scenario name stays a string, so an unknown scenario is modelled.
- Formulation.AddPrecedences, Formulation.AddAllPrecedences and Formulation.BuildModel: an item that lists the same predecessor twice would make the source name two constraints `Precedence_{pred}_to_{task}` alike, which PuLP rejects with an error (duplicate constraint names). The model appends the repeated constraint instead. ProjectData.PrecedencesUnique proves the instance table never repeats a predecessor within an item or a task across items.
- The precedence dictionary is a sequence of items in insertion order. A Python dictionary cannot repeat a key and the model's sequence can. No property relies on the difference.
- A precedence table with a cycle is covered only by Formulation.CycleIsInfeasible. The solver's behaviour on an infeasible program is not modelled.
- Earliest.Makespan: defined only when `H`'s duration is non-negative. With a negative duration of `H`, the completion's own lower bound of 0 could be the binding constraint. Every scenario of the table has positive durations.
