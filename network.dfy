/**
 * The project network: the task list, the precedence table (task -> the tasks
 * that must finish before it starts) and the directed graph it defines.
 */
module Network {

  /**
   * The task labels of the project. `D` labels the aggregate of D1..D8: the
   * duration table has an entry for it, the task list does not.
   */
  datatype Task = A | B | C | D | D1 | D2 | D3 | D4 | D5 | D6 | D7 | D8 | E | F | G | H

  /** One item of the precedence table: `task` may start only after every task in `preds` has finished. */
  datatype Entry = Entry(task: Task, preds: seq<Task>)

  /** The task list and the precedence table, the table's items in their written order. */
  datatype Plan = Plan(tasks: seq<Task>, precedences: seq<Entry>)

  /** Durations of one scenario, per task. */
  type Durations = map<Task, int>

  /** No task is listed twice. */
  predicate Distinct(s: seq<Task>) {
    forall i, j :: 0 <= i < j < |s| ==> s[i] != s[j]
  }

  /** A task that occurs in `s` has a first occurrence. */
  lemma {:induction false} FirstOccurrence(s: seq<Task>, t: Task)
    requires t in s
    ensures exists i :: 0 <= i < |s| && s[i] == t && t !in s[..i]
  {
    if s[0] == t {
      assert s[..0] == [];
    } else {
      FirstOccurrence(s[1..], t);
      var i :| 0 <= i < |s[1..]| && s[1..][i] == t && t !in s[1..][..i];
      assert s[..i + 1] == [s[0]] + s[1..][..i];
    }
  }

  /** The position of the first occurrence of `t` in `s`. */
  ghost function IndexOf(s: seq<Task>, t: Task): (i: nat)
    requires t in s
    ensures i < |s| && s[i] == t && t !in s[..i]
  {
    FirstOccurrence(s, t);
    var i :| 0 <= i < |s| && s[i] == t && t !in s[..i];
    i
  }

  /** The table lists `p` among the predecessors of `t`: an edge p -> t of the graph. */
  predicate IsEdge(es: seq<Entry>, p: Task, t: Task) {
    exists e :: e in es && e.task == t && p in e.preds
  }

  /** Some edge leaves `t`: `t` is listed as a predecessor. */
  predicate IsPredecessor(es: seq<Entry>, t: Task) {
    exists u :: IsEdge(es, t, u)
  }

  /** Some edge enters `t`: `t` is listed with a predecessor. */
  predicate IsSuccessor(es: seq<Entry>, t: Task) {
    exists p :: IsEdge(es, p, t)
  }

  /** The position in the table of an item that gives the edge p -> t. */
  lemma EdgeItem(es: seq<Entry>, p: Task, t: Task) returns (i: nat)
    requires IsEdge(es, p, t)
    ensures i < |es| && es[i].task == t && p in es[i].preds
  {
    var e :| e in es && e.task == t && p in e.preds;
    i :| i < |es| && es[i] == e;
  }

  /** Each predecessor listed in item `i` gives an edge into the item's task. */
  lemma ItemEdge(es: seq<Entry>, i: nat, p: Task)
    requires i < |es| && p in es[i].preds
    ensures IsEdge(es, p, es[i].task)
  {
    assert es[i] in es;
  }

  /** Every predecessor listed for `t`, gathered over all items of the table. */
  function PredsOf(es: seq<Entry>, t: Task): (ps: seq<Task>)
    ensures forall p :: p in ps <==> IsEdge(es, p, t)
  {
    if es == [] then []
    else
      var here := if es[0].task == t then es[0].preds else [];
      var ps := here + PredsOf(es[1..], t);
      assert forall e :: e in es[1..] ==> e in es;
      assert forall e :: e in es ==> e == es[0] || e in es[1..];
      ps
  }

  /** A task has no listed predecessor exactly when no edge enters it. */
  lemma PredsOfEmpty(es: seq<Entry>, t: Task)
    ensures PredsOf(es, t) == [] <==> forall p :: !IsEdge(es, p, t)
  {
    var ps := PredsOf(es, t);
    if ps != [] {
      assert IsEdge(es, ps[0], t);
    }
  }

  /**
   * The task list is a topological order of the precedence graph: every task
   * named in an edge is in the list and every predecessor comes before its task.
   * This is the acyclicity of the precedence relation, with the list as witness.
   */
  ghost predicate Ordered(plan: Plan) {
    forall e :: e in plan.precedences ==> EntryOrdered(plan, e)
  }

  /** Every predecessor listed in item `e` comes before `e.task` in the task list. */
  ghost predicate EntryOrdered(plan: Plan, e: Entry) {
    forall p :: p in e.preds ==>
      && e.task in plan.tasks
      && p in plan.tasks
      && IndexOf(plan.tasks, p) < IndexOf(plan.tasks, e.task)
  }

  /** Every task that is some task's predecessor has a duration. */
  predicate Timed(plan: Plan, dur: Durations) {
    forall e, p :: e in plan.precedences && p in e.preds ==> p in dur
  }

  /** `path` is a non-empty chain of tasks, each a predecessor of the next. */
  predicate IsChain(plan: Plan, path: seq<Task>) {
    && |path| > 0
    && (forall k :: 0 <= k < |path| ==> path[k] in plan.tasks)
    && (forall k :: 0 < k < |path| ==> IsEdge(plan.precedences, path[k - 1], path[k]))
  }

  /** In an ordered plan each edge goes from an earlier to a later position of the task list. */
  lemma EdgeGoesForward(plan: Plan, p: Task, t: Task)
    requires Ordered(plan) && IsEdge(plan.precedences, p, t)
    ensures p in plan.tasks && t in plan.tasks && IndexOf(plan.tasks, p) < IndexOf(plan.tasks, t)
  {
    var e :| e in plan.precedences && e.task == t && p in e.preds;
  }

  /** Every predecessor of a task comes before it and has a duration. */
  lemma PredsGoForward(plan: Plan, dur: Durations, t: Task)
    requires Ordered(plan) && Timed(plan, dur)
    ensures forall p :: p in PredsOf(plan.precedences, t) ==>
      p in plan.tasks && p in dur && (t in plan.tasks && IndexOf(plan.tasks, p) < IndexOf(plan.tasks, t))
  {
    forall p | p in PredsOf(plan.precedences, t)
      ensures p in plan.tasks && p in dur && (t in plan.tasks && IndexOf(plan.tasks, p) < IndexOf(plan.tasks, t))
    {
      var e :| e in plan.precedences && e.task == t && p in e.preds;
    }
  }

  /** A chain extended by a successor of its last task is a chain. */
  lemma ChainExtend(plan: Plan, path: seq<Task>, t: Task)
    requires IsChain(plan, path) && t in plan.tasks && IsEdge(plan.precedences, path[|path| - 1], t)
    ensures IsChain(plan, path + [t])
  {
    var ext := path + [t];
    forall k | 0 < k < |ext| ensures IsEdge(plan.precedences, ext[k - 1], ext[k]) {
      if k < |path| {
        assert ext[k - 1] == path[k - 1] && ext[k] == path[k];
      }
    }
  }

  /** A chain without its last task is a chain. */
  lemma ChainFront(plan: Plan, path: seq<Task>)
    requires IsChain(plan, path) && |path| >= 2
    ensures IsChain(plan, path[..|path| - 1])
  {
    var front := path[..|path| - 1];
    forall k | 0 < k < |front| ensures IsEdge(plan.precedences, front[k - 1], front[k]) {
      assert front[k - 1] == path[k - 1] && front[k] == path[k];
    }
  }

  /** Along a chain of an ordered plan the positions strictly increase. */
  lemma {:induction false} ChainGoesForward(plan: Plan, path: seq<Task>)
    requires Ordered(plan) && IsChain(plan, path) && |path| >= 2
    ensures IndexOf(plan.tasks, path[0]) < IndexOf(plan.tasks, path[|path| - 1])
  {
    var n := |path|;
    EdgeGoesForward(plan, path[n - 2], path[n - 1]);
    if n > 2 {
      ChainFront(plan, path);
      ChainGoesForward(plan, path[..n - 1]);
    }
  }

  /** An ordered plan has no cycle: no chain of two or more tasks returns to where it began. */
  lemma OrderedIsAcyclic(plan: Plan, path: seq<Task>)
    requires Ordered(plan) && IsChain(plan, path) && |path| >= 2
    ensures path[0] != path[|path| - 1]
  {
    ChainGoesForward(plan, path);
  }
}
