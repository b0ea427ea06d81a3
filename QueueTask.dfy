/** A job of the Redis-backed task queue
    (java/dependency_issue/.../taskqueue/model/Task.java): its status and its
    retry counter. The random id and the creation time are the caller's;
    the JSON payload is not part of this model. */
module QueueTask {
  import opened Wrappers
  import opened MachineInt

  datatype TaskStatus = Pending | Scheduled | Running | Completed | Failed | Cancelled | RetryPending

  class Task {
    var id: string
    var name: string
    var queue: string
    var status: TaskStatus
    var priority: int
    var maxRetries: int
    var retryCount: int
    var createdAt: int
    var errorMessage: Option<string>

    /** The Java `int` fields hold 32-bit values. */
    ghost predicate Valid()
      reads this
    {
      IsInt(priority) && IsInt(maxRetries) && IsInt(retryCount)
    }

    /** `Task()`: PENDING, priority 0, three retries allowed, none used. */
    constructor(id: string, now: int)
      ensures Valid()
      ensures this.id == id && name == "" && queue == "" && createdAt == now && errorMessage == None
      ensures status == Pending && priority == 0 && maxRetries == 3 && retryCount == 0
    {
      this.id := id;
      name := "";
      queue := "";
      status := Pending;
      createdAt := now;
      priority := 0;
      maxRetries := 3;
      retryCount := 0;
      errorMessage := None;
    }

    /** `Task(name, queue, payload)`: the defaults with a name and a queue. */
    constructor Named(id: string, name: string, queue: string, now: int)
      ensures Valid()
      ensures this.id == id && this.name == name && this.queue == queue && createdAt == now && errorMessage == None
      ensures status == Pending && priority == 0 && maxRetries == 3 && retryCount == 0
    {
      this.id := id;
      this.name := name;
      this.queue := queue;
      status := Pending;
      createdAt := now;
      priority := 0;
      maxRetries := 3;
      retryCount := 0;
      errorMessage := None;
    }

    /** `canRetry`. */
    function CanRetry(): (b: bool)
      reads this
      ensures b <==> retryCount < maxRetries
    {
      retryCount < maxRetries
    }

    /** `incrementRetry`: `retryCount++` on a Java `int`; nothing else
        changes. */
    method IncrementRetry()
      requires Valid()
      modifies this
      ensures Valid() && retryCount == WrapInt(old(retryCount) + 1)
      ensures old(retryCount) < IntMax ==> retryCount == old(retryCount) + 1
      ensures old(CanRetry()) ==> retryCount == old(retryCount) + 1 && retryCount <= maxRetries
      ensures id == old(id) && name == old(name) && queue == old(queue) && status == old(status)
      ensures priority == old(priority) && maxRetries == old(maxRetries)
      ensures createdAt == old(createdAt) && errorMessage == old(errorMessage)
    {
      retryCount := WrapInt(retryCount + 1);
    }
  }

  /** The retry count after `failures` failed runs, each calling
      `incrementRetry` only while `canRetry` holds. */
  function RetriesAfter(retryCount: int, maxRetries: int, failures: nat): int
    decreases failures
  {
    if failures == 0 || !(retryCount < maxRetries) then retryCount
    else RetriesAfter(retryCount + 1, maxRetries, failures - 1)
  }

  /** From a count within the limit, each failure uses one retry until the
      limit is reached: from 0, at most `maxRetries` retries ever happen. */
  lemma {:induction false} RetriesBounded(retryCount: int, maxRetries: int, failures: nat)
    requires retryCount <= maxRetries
    ensures RetriesAfter(retryCount, maxRetries, failures)
      == if retryCount + failures < maxRetries then retryCount + failures else maxRetries
    decreases failures
  {
    if failures > 0 && retryCount < maxRetries {
      RetriesBounded(retryCount + 1, maxRetries, failures - 1);
    }
  }

  /** A new task survives three failures and is out of retries after them. */
  lemma DefaultRetries()
    ensures RetriesAfter(0, 3, 2) == 2
    ensures RetriesAfter(0, 3, 3) == 3 && RetriesAfter(0, 3, 10) == 3
  {
    RetriesBounded(0, 3, 2);
    RetriesBounded(0, 3, 3);
    RetriesBounded(0, 3, 10);
  }
}
