/**
 * The project instance: the fifteen tasks, the duration table of the three
 * scenarios and the precedence table, with the facts about them that the
 * formulation relies on.
 */
module ProjectData {
  import opened Network
  import opened Formulation

  const Tasks: seq<Task> := [A, B, C, D1, D2, D3, D4, D5, D6, D7, D8, E, F, G, H]

  const Best: Durations := map[
    A := 10, B := 12, C := 8, D := 195, D1 := 20, D2 := 30, D3 := 40, D4 := 45,
    D5 := 20, D6 := 15, D7 := 15, D8 := 10, E := 10, F := 8, G := 5, H := 3]

  const Expected: Durations := map[
    A := 15, B := 18, C := 12, D := 245, D1 := 25, D2 := 40, D3 := 50, D4 := 55,
    D5 := 25, D6 := 20, D7 := 18, D8 := 12, E := 16, F := 10, G := 7, H := 5]

  const Worst: Durations := map[
    A := 20, B := 24, C := 16, D := 335, D1 := 35, D2 := 50, D3 := 70, D4 := 75,
    D5 := 35, D6 := 30, D7 := 25, D8 := 15, E := 20, F := 16, G := 10, H := 7]

  /** Task durations by scenario; D is the aggregate of D1..D8 and is not in the task list. */
  const DurationTable: map<Scenario, Durations> := map["best" := Best, "expected" := Expected, "worst" := Worst]

  /** The precedence table, in its written order. */
  const Precedences: seq<Entry> := [
    Entry(C, [A]), Entry(D1, [A]), Entry(D2, [D1]), Entry(D3, [D1]), Entry(D4, [D2, D3]),
    Entry(D5, [D4]), Entry(D6, [D4]), Entry(D7, [D6]), Entry(D8, [D5, D7]),
    Entry(E, [B, C]), Entry(F, [D8, E]), Entry(G, [A, D8]), Entry(H, [F, G])
  ]

  const Instance: Plan := Plan(Tasks, Precedences)

  /** The position of each task in the task list; D, which the list leaves out, comes after it. */
  function Position(t: Task): nat {
    match t
    case A => 0 case B => 1 case C => 2 case D1 => 3 case D2 => 4 case D3 => 5 case D4 => 6 case D5 => 7
    case D6 => 8 case D7 => 9 case D8 => 10 case E => 11 case F => 12 case G => 13 case H => 14 case D => 15
  }

  /** The task at position `k` of the list has position `k`. */
  lemma PositionAt(k: nat)
    requires k < |Tasks|
    ensures Position(Tasks[k]) == k
  {
  }

  /** A task with a position inside the list is in the list. */
  lemma PositionInList(t: Task)
    requires Position(t) < |Tasks|
    ensures Tasks[Position(t)] == t
  {
    match t
    case A => case B => case C => case D => case D1 => case D2 => case D3 => case D4 =>
    case D5 => case D6 => case D7 => case D8 => case E => case F => case G => case H =>
  }

  /** The task list names each task once. */
  lemma TasksDistinct()
    ensures Distinct(Tasks)
  {
    forall i, j | 0 <= i < j < |Tasks| ensures Tasks[i] != Tasks[j] {
      PositionAt(i);
      PositionAt(j);
    }
  }

  /** The first occurrence of a task in the list is at its position. */
  lemma IndexIsPosition(t: Task)
    requires t in Tasks
    ensures IndexOf(Tasks, t) == Position(t)
  {
    PositionAt(IndexOf(Tasks, t));
  }

  /** Every edge goes from a task of the list to a later task of the list. */
  lemma ListedEdgeForward(p: Task, t: Task)
    requires ListedEdge(p, t)
    ensures Position(p) < Position(t) < |Tasks|
  {
  }

  /** The task list is a topological order of the precedence table, so the table has no cycle. */
  lemma InstanceOrdered()
    ensures Ordered(Instance)
  {
    forall e | e in Precedences ensures EntryOrdered(Instance, e) {
      forall p | p in e.preds
        ensures e.task in Tasks && p in Tasks && IndexOf(Tasks, p) < IndexOf(Tasks, e.task)
      {
        EdgeTasksListed(p, e.task);
        IndexIsPosition(p);
        IndexIsPosition(e.task);
      }
    }
  }

  /** The nineteen edges of the precedence graph. */
  predicate ListedEdge(p: Task, t: Task) {
    || (p == A && t == C)
    || (p == A && t == D1)
    || (p == D1 && t == D2)
    || (p == D1 && t == D3)
    || (p == D2 && t == D4)
    || (p == D3 && t == D4)
    || (p == D4 && t == D5)
    || (p == D4 && t == D6)
    || (p == D6 && t == D7)
    || (p == D5 && t == D8)
    || (p == D7 && t == D8)
    || (p == B && t == E)
    || (p == C && t == E)
    || (p == D8 && t == F)
    || (p == E && t == F)
    || (p == A && t == G)
    || (p == D8 && t == G)
    || (p == F && t == H)
    || (p == G && t == H)
  }

  /** Each predecessor listed in item `i` gives one of the listed edges. */
  lemma ItemEdges(i: int, p: Task, t: Task)
    requires 0 <= i < |Precedences| && Precedences[i].task == t && p in Precedences[i].preds
    ensures ListedEdge(p, t)
  {
    if i < 7 {
      EarlyItemEdges(i, p, t);
    } else {
      LateItemEdges(i, p, t);
    }
  }

  /** The edges given by items 0 to 6 of the precedence table. */
  lemma EarlyItemEdges(i: int, p: Task, t: Task)
    requires 0 <= i < 7 && Precedences[i].task == t && p in Precedences[i].preds
    ensures ListedEdge(p, t)
  {
    match i
    case 0 => case 1 => case 2 => case 3 => case 4 => case 5 => case 6 =>
  }

  /** The edges given by items 7 to 12 of the precedence table. */
  lemma LateItemEdges(i: int, p: Task, t: Task)
    requires 7 <= i < |Precedences| && Precedences[i].task == t && p in Precedences[i].preds
    ensures ListedEdge(p, t)
  {
    match i
    case 7 => case 8 => case 9 => case 10 => case 11 => case 12 =>
  }

  /** Each listed edge is given by an item of the precedence table. */
  lemma ListedEdgeInTable(p: Task, t: Task)
    requires ListedEdge(p, t)
    ensures IsEdge(Precedences, p, t)
  {
    if p == A && t == C { ItemEdge(Precedences, 0, A); }
    else if p == A && t == D1 { ItemEdge(Precedences, 1, A); }
    else if p == D1 && t == D2 { ItemEdge(Precedences, 2, D1); }
    else if p == D1 && t == D3 { ItemEdge(Precedences, 3, D1); }
    else if p == D2 && t == D4 { ItemEdge(Precedences, 4, D2); }
    else if p == D3 && t == D4 { ItemEdge(Precedences, 4, D3); }
    else if p == D4 && t == D5 { ItemEdge(Precedences, 5, D4); }
    else if p == D4 && t == D6 { ItemEdge(Precedences, 6, D4); }
    else if p == D6 && t == D7 { ItemEdge(Precedences, 7, D6); }
    else if p == D5 && t == D8 { ItemEdge(Precedences, 8, D5); }
    else if p == D7 && t == D8 { ItemEdge(Precedences, 8, D7); }
    else if p == B && t == E { ItemEdge(Precedences, 9, B); }
    else if p == C && t == E { ItemEdge(Precedences, 9, C); }
    else if p == D8 && t == F { ItemEdge(Precedences, 10, D8); }
    else if p == E && t == F { ItemEdge(Precedences, 10, E); }
    else if p == A && t == G { ItemEdge(Precedences, 11, A); }
    else if p == D8 && t == G { ItemEdge(Precedences, 11, D8); }
    else if p == F && t == H { ItemEdge(Precedences, 12, F); }
    else if p == G && t == H { ItemEdge(Precedences, 12, G); }
  }

  /** The precedence table defines exactly the listed edges. */
  lemma InstanceEdges(p: Task, t: Task)
    ensures IsEdge(Precedences, p, t) <==> ListedEdge(p, t)
  {
    if IsEdge(Precedences, p, t) {
      var i := EdgeItem(Precedences, p, t);
      ItemEdges(i, p, t);
    }
    if ListedEdge(p, t) {
      ListedEdgeInTable(p, t);
    }
  }

  /** Both tasks of every edge are in the task list. */
  lemma EdgeTasksListed(p: Task, t: Task)
    requires IsEdge(Precedences, p, t)
    ensures p in Tasks && t in Tasks && Position(p) < Position(t)
  {
    InstanceEdges(p, t);
    ListedEdgeForward(p, t);
    PositionInList(p);
    PositionInList(t);
  }

  /** Item `i` of the precedence table is headed by the task at position `i + 2` of the list. */
  lemma ItemPosition(i: nat)
    requires i < |Precedences|
    ensures Position(Precedences[i].task) == i + 2
  {
    match i
    case 0 => case 1 => case 2 => case 3 => case 4 => case 5 => case 6 =>
    case 7 => case 8 => case 9 => case 10 => case 11 => case 12 =>
  }

  /**
   * No item of the precedence table lists a predecessor twice and no task heads
   * two items, so no two precedence constraints share a name.
   */
  lemma PrecedencesUnique()
    ensures forall i :: 0 <= i < |Precedences| ==> Distinct(Precedences[i].preds)
    ensures forall i, j :: 0 <= i < j < |Precedences| ==> Precedences[i].task != Precedences[j].task
  {
    forall i | 0 <= i < |Precedences| ensures Distinct(Precedences[i].preds) {
      match i
      case 0 => case 1 => case 2 => case 3 => case 4 => case 5 => case 6 =>
      case 7 => case 8 => case 9 => case 10 => case 11 => case 12 =>
    }
    forall i, j | 0 <= i < j < |Precedences| ensures Precedences[i].task != Precedences[j].task {
      ItemPosition(i);
      ItemPosition(j);
    }
  }

  /** A predecessor of each task other than the sources A and B. */
  function SomePred(t: Task): (p: Task)
    requires t != A && t != B
    ensures t in Tasks ==> ListedEdge(p, t)
  {
    match t
    case C | D1 | G => A
    case D2 | D3 => D1
    case D4 => D2
    case D5 | D6 => D4
    case D7 => D6
    case D8 => D5
    case E => B
    case F => E
    case _ => F
  }

  /** A successor of each task other than the sink H. */
  function SomeSucc(t: Task): (u: Task)
    requires t != H
    ensures t in Tasks ==> ListedEdge(t, u)
  {
    match t
    case A => C
    case B | C => E
    case D1 => D2
    case D2 | D3 => D4
    case D4 => D5
    case D5 | D7 => D8
    case D6 => D7
    case D8 | E => F
    case _ => H
  }

  /** No edge enters A or B. */
  lemma SourcesUnentered(t: Task)
    requires t == A || t == B
    ensures forall p :: !IsEdge(Precedences, p, t)
  {
    forall p ensures !IsEdge(Precedences, p, t) {
      InstanceEdges(p, t);
    }
  }

  /** No edge enters A or B, and an edge enters every other task of the list. */
  lemma EntersIffNotSource(t: Task)
    requires t in Tasks
    ensures (forall p :: !IsEdge(Precedences, p, t)) <==> t == A || t == B
  {
    if t == A || t == B {
      SourcesUnentered(t);
    } else {
      InstanceEdges(SomePred(t), t);
    }
  }

  /** A and B are the only tasks without predecessors: the sources of the graph. */
  lemma SourcesAreAAndB(t: Task)
    requires t in Tasks
    ensures PredsOf(Precedences, t) == [] <==> t == A || t == B
  {
    PredsOfEmpty(Precedences, t);
    EntersIffNotSource(t);
  }

  /** H is the only task that is nobody's predecessor: the single sink of the graph. */
  lemma SinkIsH(t: Task)
    requires t in Tasks
    ensures (forall u :: !IsEdge(Precedences, t, u)) <==> t == H
  {
    if t == H {
      forall u ensures !IsEdge(Precedences, H, u) {
        InstanceEdges(H, u);
      }
    } else {
      InstanceEdges(t, SomeSucc(t));
    }
  }

  /** Every task label, D included, has a positive duration. */
  predicate Complete(dur: Durations) {
    forall t :: t in dur && dur[t] > 0
  }

  lemma BestComplete()
    ensures Complete(Best)
  {
    forall t ensures t in Best && Best[t] > 0 {
      match t
      case A => case B => case C => case D => case D1 => case D2 => case D3 => case D4 =>
      case D5 => case D6 => case D7 => case D8 => case E => case F => case G => case H =>
    }
  }

  lemma ExpectedComplete()
    ensures Complete(Expected)
  {
    forall t ensures t in Expected && Expected[t] > 0 {
      match t
      case A => case B => case C => case D => case D1 => case D2 => case D3 => case D4 =>
      case D5 => case D6 => case D7 => case D8 => case E => case F => case G => case H =>
    }
  }

  lemma WorstComplete()
    ensures Complete(Worst)
  {
    forall t ensures t in Worst && Worst[t] > 0 {
      match t
      case A => case B => case C => case D => case D1 => case D2 => case D3 => case D4 =>
      case D5 => case D6 => case D7 => case D8 => case E => case F => case G => case H =>
    }
  }

  /** Every scenario of the table gives every task label, D included, a positive duration. */
  lemma DurationsPositive(scenario: Scenario)
    requires scenario in DurationTable
    ensures Complete(DurationTable[scenario])
  {
    var dur := DurationTable[scenario];
    assert dur == Best || dur == Expected || dur == Worst;
    BestComplete();
    ExpectedComplete();
    WorstComplete();
  }

  /** The duration given for D is the total of the durations of D1..D8. */
  predicate AggregatesD(dur: Durations) {
    && D in dur && D1 in dur && D2 in dur && D3 in dur && D4 in dur && D5 in dur && D6 in dur && D7 in dur && D8 in dur
    && dur[D] == dur[D1] + dur[D2] + dur[D3] + dur[D4] + dur[D5] + dur[D6] + dur[D7] + dur[D8]
  }

  /** In every scenario the duration given for D is the total of D1..D8. */
  lemma AggregateD(scenario: Scenario)
    requires scenario in DurationTable
    ensures AggregatesD(DurationTable[scenario])
  {
    var dur := DurationTable[scenario];
    assert dur == Best || dur == Expected || dur == Worst;
    BestAggregate();
    ExpectedAggregate();
    WorstAggregate();
  }

  lemma BestAggregate()
    ensures AggregatesD(Best)
  {
  }

  lemma ExpectedAggregate()
    ensures AggregatesD(Expected)
  {
  }

  lemma WorstAggregate()
    ensures AggregatesD(Worst)
  {
  }

  /** The program can be built for a scenario exactly when the scenario is in the duration table. */
  lemma InstanceFormulable(scenario: Scenario)
    ensures Formulable(Instance, DurationTable, scenario) <==> scenario in DurationTable
  {
    FormulableByEdges(Instance, DurationTable, scenario);
    if scenario in DurationTable {
      DurationsPositive(scenario);
      forall p, t | IsEdge(Precedences, p, t) ensures t in Tasks && p in Tasks && p in DurationTable[scenario] {
        EdgeTasksListed(p, t);
      }
    }
  }
}
