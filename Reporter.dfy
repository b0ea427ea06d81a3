/** The execution reporter (python/runtime_failure/reporter.py): counts,
    average time and the failed results of a run. The console formatting of
    `print_summary` is not modelled; its numbers are the `Summary` below. */
module Reporter {
  import opened Wrappers
  import opened TaskModels

  /** The numbers `print_summary` prints. */
  datatype Summary = Summary(total: nat, successful: nat, failed: int, averageTime: real, successRate: real)

  /** `sum(1 for r in results if r.status == TaskStatus.SUCCESS)`. */
  function CountSuccessful(results: seq<ExecutionResult>): (n: nat)
    ensures n <= |results|
  {
    if results == [] then 0
    else CountSuccessful(results[..|results| - 1]) + (if Succeeded(results[|results| - 1]) then 1 else 0)
  }

  /** `sum(r.execution_time for r in results)`. */
  function TotalTime(results: seq<ExecutionResult>): real {
    if results == [] then 0.0 else TotalTime(results[..|results| - 1]) + results[|results| - 1].executionTime
  }

  /** `_calculate_average_time`. */
  function AverageTime(results: seq<ExecutionResult>): real {
    if results == [] then 0.0 else TotalTime(results) / (|results| as real)
  }

  /** `get_failed_tasks`: the FAILED results, in their order. */
  function FailedTasks(results: seq<ExecutionResult>): seq<ExecutionResult> {
    if results == [] then []
    else
      var last := results[|results| - 1];
      FailedTasks(results[..|results| - 1]) + (if last.status == Failed then [last] else [])
  }

  /** The numbers of `print_summary`; an empty run raises ZeroDivisionError
      when the success rate divides by the total. */
  function Summarize(results: seq<ExecutionResult>): Result<Summary, string> {
    var total := |results|;
    var successful := CountSuccessful(results);
    var avg := AverageTime(results);
    if total == 0 then Err("division by zero")
    else Ok(Summary(total, successful, total - successful, avg, (successful as real) / (total as real) * 100.0))
  }

  /** The summary exists exactly for a non-empty run. */
  lemma SummaryDefined(results: seq<ExecutionResult>)
    ensures Summarize(results).Err? <==> results == []
    ensures Summarize(results).Err? ==> Summarize(results).error == "division by zero"
  {
  }

  /** The successful and failed counts of a summary partition the total and
      the rate is the successful share in percent. */
  lemma SummarySpec(results: seq<ExecutionResult>, s: Summary)
    requires Summarize(results) == Ok(s)
    ensures s.total == |results| && s.successful + s.failed == s.total
    ensures 0 <= s.failed && s.successful == CountSuccessful(results)
    ensures 0.0 <= s.successRate <= 100.0
    ensures s.successRate * (s.total as real) == (s.successful as real) * 100.0
    ensures s.averageTime == AverageTime(results)
  {
    Percentage(s.successful as real, s.total as real, s.successRate);
  }

  /** `part / whole * 100` of a part of a positive whole is a percentage. */
  lemma Percentage(part: real, whole: real, rate: real)
    requires 0.0 <= part <= whole && 0.0 < whole && rate == part / whole * 100.0
    ensures 0.0 <= rate <= 100.0 && rate * whole == part * 100.0
  {
    assert (part / whole) * whole == part;
  }

  /** The failed list holds exactly the FAILED results, in their order:
      splitting the run splits the list. */
  lemma {:induction false} FailedTasksSpec(results: seq<ExecutionResult>)
    ensures forall r :: r in FailedTasks(results) <==> r in results && r.status == Failed
    ensures |FailedTasks(results)| <= |results| - CountSuccessful(results)
  {
    if results != [] {
      var init := results[..|results| - 1];
      FailedTasksSpec(init);
      assert results == init + [results[|results| - 1]];
    }
  }

  lemma {:induction false} FailedTasksAppend(a: seq<ExecutionResult>, b: seq<ExecutionResult>)
    ensures FailedTasks(a + b) == FailedTasks(a) + FailedTasks(b)
  {
    if b != [] {
      var init := b[..|b| - 1];
      FailedTasksAppend(a, init);
      assert (a + b)[..|a + b| - 1] == a + init;
    } else {
      assert a + b == a;
    }
  }

  /** When every result is SUCCESS or FAILED, as the executor produces, the
      failed list is as long as the summary's failed count. */
  lemma {:induction false} FailedCountMatches(results: seq<ExecutionResult>)
    requires forall r :: r in results ==> r.status == Success || r.status == Failed
    ensures |FailedTasks(results)| == |results| - CountSuccessful(results)
  {
    if results != [] {
      var init := results[..|results| - 1];
      assert forall r :: r in init ==> r in results;
      FailedCountMatches(init);
      assert results[|results| - 1] in results;
    }
  }

  /** The total time is the average times the count. */
  lemma AverageTimeSpec(results: seq<ExecutionResult>)
    ensures AverageTime(results) * (|results| as real) == TotalTime(results)
    ensures results == [] ==> AverageTime(results) == 0.0
  {
    if results == [] {
      assert TotalTime(results) == 0.0;
    }
  }

  /** The average of times within [lo, hi] lies within [lo, hi]. */
  lemma AverageTimeBounds(results: seq<ExecutionResult>, lo: real, hi: real)
    requires results != []
    requires forall r :: r in results ==> lo <= r.executionTime <= hi
    ensures lo <= AverageTime(results) <= hi
  {
    var n := |results| as real;
    TotalTimeBounds(results, lo, hi);
    Scaled(lo, |results|);
    Scaled(hi, |results|);
    AverageTimeSpec(results);
    var avg, total := AverageTime(results), TotalTime(results);
    CancelFactor(lo, hi, avg, n, total);
  }

  lemma CancelFactor(lo: real, hi: real, a: real, n: real, total: real)
    requires 0.0 < n && lo * n <= total <= hi * n && a * n == total
    ensures lo <= a <= hi
  {
    assert (a - lo) * n == a * n - lo * n && (hi - a) * n == hi * n - a * n;
  }

  /** `x` added `n` times. */
  function Repeated(x: real, n: nat): real {
    if n == 0 then 0.0 else Repeated(x, n - 1) + x
  }

  lemma {:induction false} Scaled(x: real, n: nat)
    ensures Repeated(x, n) == x * (n as real)
  {
    if n > 0 {
      Scaled(x, n - 1);
      assert x * (n as real) == x * ((n - 1) as real) + x;
    }
  }

  /** A sum of times within [lo, hi] lies between `lo` and `hi` taken once per result. */
  lemma {:induction false} TotalTimeBounds(results: seq<ExecutionResult>, lo: real, hi: real)
    requires forall r :: r in results ==> lo <= r.executionTime <= hi
    ensures Repeated(lo, |results|) <= TotalTime(results) <= Repeated(hi, |results|)
  {
    if results != [] {
      var init := results[..|results| - 1];
      assert forall r :: r in init ==> r in results;
      TotalTimeBounds(init, lo, hi);
      assert results[|results| - 1] in results;
    }
  }
}
