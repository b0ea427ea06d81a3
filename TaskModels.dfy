/** Data model of the task automation engine (python/runtime_failure/models.py):
    a task description, the per-task execution result and its status, and
    the task mapping (a dict from name to task, iterated in insertion order)
    that the engine passes around. */
module TaskModels {
  import opened Wrappers

  datatype TaskStatus = Pending | Running | Success | Failed | Skipped

  datatype Task = Task(
    name: string,
    command: string,
    dependencies: seq<string>,
    timeout: Option<int>,
    retryCount: int,
    enabled: bool)

  /** `Task(name, command)` with every optional field at its default. */
  function NewTask(name: string, command: string): (t: Task)
    ensures t.name == name && t.command == command
    ensures t.dependencies == [] && t.timeout == None
    ensures t.retryCount == 1 && t.enabled
  {
    Task(name, command, [], None, 1, true)
  }

  /** `Task.__eq__`: two tasks are equal when their names are. */
  predicate SameTask(a: Task, b: Task) {
    a.name == b.name
  }

  /** `Task.__hash__` hashes the name alone; the model keeps the hashed key. */
  function HashKey(t: Task): string {
    t.name
  }

  /** Equality is an equivalence that ignores every field but the name, and
      equal tasks have equal hash keys. */
  lemma SameTaskProperties(a: Task, b: Task, c: Task)
    ensures SameTask(a, a)
    ensures SameTask(a, b) ==> SameTask(b, a)
    ensures SameTask(a, b) && SameTask(b, c) ==> SameTask(a, c)
    ensures SameTask(a, b) ==> HashKey(a) == HashKey(b)
    ensures SameTask(a, b) <==> a.name == b.name
  {
  }

  datatype ExecutionResult = ExecutionResult(
    taskName: string,
    status: TaskStatus,
    output: string,
    error: string,
    executionTime: real,
    retriesUsed: int)

  /** `ExecutionResult(task_name, status)` with every optional field at its default. */
  function NewResult(taskName: string, status: TaskStatus): (r: ExecutionResult)
    ensures r.taskName == taskName && r.status == status
    ensures r.output == "" && r.error == "" && r.executionTime == 0.0 && r.retriesUsed == 0
  {
    ExecutionResult(taskName, status, "", "", 0.0, 0)
  }

  /** The `succeeded` property. */
  predicate Succeeded(r: ExecutionResult) {
    r.status == Success
  }

  ghost predicate Distinct<T>(s: seq<T>) {
    forall i, j :: 0 <= i < j < |s| ==> s[i] != s[j]
  }

  /** A Python dict from task name to task: its keys in insertion order and
      the table they index. */
  datatype TaskMap = TaskMap(keys: seq<string>, table: map<string, Task>)

  /** Every key occurs once and the key list and the table agree. */
  ghost predicate WellFormed(m: TaskMap) {
    && Distinct(m.keys)
    && forall n :: n in m.table <==> n in m.keys
  }

  /** The declared dependencies of the task stored under `name` (none when absent). */
  function DepsOf(m: TaskMap, name: string): seq<string> {
    if name in m.table then m.table[name].dependencies else []
  }
}
