/** The automation engine's coordinator (python/runtime_failure/engine.py):
    `execute_all` runs the enabled tasks in dependency order and collects
    one result per task.

    Reading the configuration file is not modelled: the engine is built with
    the task mapping it would load. The subprocess outcomes are the parameter
    `runs` (one oracle per task name, as in the executor model) and the
    measured wall-clock time of each task is the parameter `elapsed`. */
module Engine {
  import opened Wrappers
  import opened TaskModels
  import opened TaskScheduler
  import opened TaskExecutor

  /** The names of `order` whose task is enabled, in order. */
  function EnabledIn(m: TaskMap, order: seq<string>): seq<string>
    requires forall n :: n in order ==> n in m.table
  {
    if order == [] then []
    else
      var last := order[|order| - 1];
      EnabledIn(m, order[..|order| - 1]) + (if m.table[last].enabled then [last] else [])
  }

  /** The result `execute_all` appends for task `name`: the executor's result
      with its time replaced by the measured one. */
  function TimedResult(m: TaskMap, ex: Executor, dirExists: string -> bool,
                       runs: string -> (Option<string>, nat) -> RunOutcome, elapsed: string -> real,
                       name: string): ExecutionResult
    requires name in m.table
  {
    RunFrom(ex, m.table[name], dirExists, runs(name), 0, "").(executionTime := elapsed(name))
  }

  /** The results of running the tasks of `order`, skipping disabled ones. */
  function Executions(m: TaskMap, order: seq<string>, ex: Executor, dirExists: string -> bool,
                      runs: string -> (Option<string>, nat) -> RunOutcome, elapsed: string -> real): seq<ExecutionResult>
    requires forall n :: n in order ==> n in m.table
  {
    if order == [] then []
    else
      var last := order[|order| - 1];
      Executions(m, order[..|order| - 1], ex, dirExists, runs, elapsed)
        + (if m.table[last].enabled then [TimedResult(m, ex, dirExists, runs, elapsed, last)] else [])
  }

  /** One result per enabled task, in the order given, each the executor's
      result for that task stamped with its measured time. A failed task
      does not cut the list short. */
  lemma {:induction false} ExecutionsSpec(m: TaskMap, order: seq<string>, ex: Executor, dirExists: string -> bool,
                                          runs: string -> (Option<string>, nat) -> RunOutcome, elapsed: string -> real)
    requires forall n :: n in order ==> n in m.table
    ensures var e := Executions(m, order, ex, dirExists, runs, elapsed);
      var names := EnabledIn(m, order);
      && |e| == |names|
      && forall i :: 0 <= i < |e| ==>
           names[i] in m.table && e[i] == TimedResult(m, ex, dirExists, runs, elapsed, names[i])
  {
    if order != [] {
      ExecutionsSpec(m, order[..|order| - 1], ex, dirExists, runs, elapsed);
    }
  }

  /** The enabled names keep the order's order, drop exactly the disabled
      tasks, and name each task at most once when the order does. */
  lemma {:induction false} EnabledInSpec(m: TaskMap, order: seq<string>)
    requires forall n :: n in order ==> n in m.table
    ensures forall n :: n in EnabledIn(m, order) <==> n in order && m.table[n].enabled
    ensures Distinct(order) ==> Distinct(EnabledIn(m, order))
    ensures |EnabledIn(m, order)| <= |order|
  {
    if order != [] {
      var init := order[..|order| - 1];
      var last := order[|order| - 1];
      EnabledInSpec(m, init);
      assert order == init + [last];
      if Distinct(order) {
        assert forall i :: 0 <= i < |init| ==> init[i] == order[i];
        assert Distinct(init);
        assert last !in init;
      }
    }
  }

  /** Every task is stored under its own name, as `load_config` stores it. */
  ghost predicate NamesAgree(m: TaskMap) {
    forall n :: n in m.table ==> m.table[n].name == n
  }

  /** The timed result of a task carries the task's name and its measured time. */
  lemma TimedResultSpec(m: TaskMap, ex: Executor, dirExists: string -> bool,
                        runs: string -> (Option<string>, nat) -> RunOutcome, elapsed: string -> real, name: string)
    requires name in m.table
    ensures TimedResult(m, ex, dirExists, runs, elapsed, name).taskName == m.table[name].name
    ensures TimedResult(m, ex, dirExists, runs, elapsed, name).executionTime == elapsed(name)
  {
    ExecuteSpec(ex, m.table[name], dirExists, runs(name));
  }

  /** Every result belongs to an enabled task of the order and carries that
      task's measured time; a disabled task never has one. */
  lemma ResultsOfEnabledTasks(m: TaskMap, order: seq<string>, ex: Executor, dirExists: string -> bool,
                              runs: string -> (Option<string>, nat) -> RunOutcome, elapsed: string -> real)
    requires NamesAgree(m) && forall n :: n in order ==> n in m.table
    ensures forall r :: r in Executions(m, order, ex, dirExists, runs, elapsed) ==>
              r.taskName in order && m.table[r.taskName].enabled && r.executionTime == elapsed(r.taskName)
  {
    var e := Executions(m, order, ex, dirExists, runs, elapsed);
    var names := EnabledIn(m, order);
    ExecutionsSpec(m, order, ex, dirExists, runs, elapsed);
    EnabledInSpec(m, order);
    forall i | 0 <= i < |e|
      ensures e[i].taskName == names[i] && e[i].executionTime == elapsed(names[i])
    {
      TimedResultSpec(m, ex, dirExists, runs, elapsed, names[i]);
    }
    forall r | r in e
      ensures r.taskName in names
    {
      var i :| 0 <= i < |e| && e[i] == r;
    }
  }

  /** Running one more name of the order appends its timed result, unless it is disabled. */
  lemma ExecutionsStep(m: TaskMap, order: seq<string>, i: nat, ex: Executor, dirExists: string -> bool,
                       runs: string -> (Option<string>, nat) -> RunOutcome, elapsed: string -> real)
    requires i < |order| && forall n :: n in order ==> n in m.table
    ensures Executions(m, order[..i + 1], ex, dirExists, runs, elapsed)
            == Executions(m, order[..i], ex, dirExists, runs, elapsed)
               + (if m.table[order[i]].enabled then [TimedResult(m, ex, dirExists, runs, elapsed, order[i])] else [])
  {
    assert order[..i + 1][..i] == order[..i];
  }

  class AutomationEngine {
    var tasks: TaskMap
    var results: seq<ExecutionResult>
    const executor: Executor

    /** A fresh engine over the loaded tasks; `workspace` is the
        TASK_WORKSPACE environment variable, which may be unset. */
    constructor(tasks: TaskMap, workspace: Option<string>)
      ensures this.tasks == tasks && results == [] && executor == Executor(workspace)
    {
      this.tasks := tasks;
      results := [];
      executor := Executor(workspace);
    }

    /** `execute_all`. When the scheduler raises, the error propagates and
        nothing is run; otherwise one timed result per enabled task is
        appended, following a dependency order of all tasks. */
    method ExecuteAll(dirExists: string -> bool, runs: string -> (Option<string>, nat) -> RunOutcome,
                      elapsed: string -> real)
      returns (outcome: Result<(), string>, ghost order: seq<string>)
      requires WellFormed(tasks)
      modifies this
      ensures tasks == old(tasks)
      ensures outcome.Err? ==> outcome.error == CircularDependencyMessage && results == old(results)
      ensures outcome.Ok? ==> IsTopologicalOrder(tasks, order)
      ensures outcome.Ok? ==> results == old(results) + Executions(tasks, order, executor, dirExists, runs, elapsed)
    {
      var resolved := ResolveOrder(tasks);
      if resolved.Err? {
        return Err(resolved.error), [];
      }
      order := resolved.value;
      RunInOrder(resolved.value, dirExists, runs, elapsed);
      return Ok(()), order;
    }

    /** The loop of `execute_all` over a resolved order. */
    method RunInOrder(executionOrder: seq<string>, dirExists: string -> bool,
                      runs: string -> (Option<string>, nat) -> RunOutcome, elapsed: string -> real)
      requires forall n :: n in executionOrder ==> n in tasks.table
      modifies this
      ensures tasks == old(tasks)
      ensures results == old(results) + Executions(tasks, executionOrder, executor, dirExists, runs, elapsed)
    {
      var i := 0;
      while i < |executionOrder|
        invariant 0 <= i <= |executionOrder|
        invariant tasks == old(tasks)
        invariant results == old(results) + Executions(tasks, executionOrder[..i], executor, dirExists, runs, elapsed)
      {
        var name := executionOrder[i];
        ExecutionsStep(tasks, executionOrder, i, executor, dirExists, runs, elapsed);
        var task := tasks.table[name];
        if !task.enabled {
          i := i + 1;
          continue;
        }
        var result := Execute(executor, task, dirExists, runs(name));
        result := result.(executionTime := elapsed(name));
        results := results + [result];
        i := i + 1;
      }
      assert executionOrder[..i] == executionOrder;
    }
  }
}
