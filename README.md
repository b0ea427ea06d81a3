# A verified model of the task-automation engine and its companion applications

This project models, in Dafny, the core of a repository of small applications written in
Python, Java, JavaScript, TypeScript and C++. The largest piece is the task-automation engine:
- the task model,
- Kahn's topological sort of tasks by their declared dependencies,
- the executor's bounded retry loop,
- the coordinator that runs enabled tasks in dependency order,
- the reporter that summarises the results.

Beside it the model covers:
- the calculator's expression evaluator and statistics;
- the bookstore repositories and the pipeline's bounded queue;
- the leaderboard: players, tiers and the ranking service;
- the meeting scheduler and its time slots;
- the job of the Redis-backed task queue;
- the C++ entity-component system;
- the shopping cart with its discounts and shipping;
- the priority event queue;
- the recursive configuration merge;
- the task board's task model and in-memory store;
- the data validation tool's file parser.

Each Dafny module follows one source file. Its header comment names that file and states
the modelling choices. The shared modules are:
- `Wrappers`: `Option` and `Result`.
- `Text`: decimal rendering, ASCII case mapping, trimming and splitting.
- `Sorting`: a stable sort by a numeric key, the shape of the key-based library sorts: those of the leaderboard, the meeting scheduler, the statistics, the discounts and the event queue. The task store's sort is its own function, `TaskApi.SortRecords`: a comparator on one string-valued field under JavaScript's UTF-16 code-unit `<`, and a property no task has makes every pair compare equal.
- `Keys`: an ordered map, for the insertion order of a `dict`, a `Map` or a `HashMap`.
- `MachineInt`: Java's 32-bit and 64-bit wrap-around.

Modelling conventions:
- Money is whole cents.
- Times are minutes, seconds or day numbers.
- Floating-point numbers are exact reals.
- Effects the code cannot see become parameters: the clock, random ids, `JSON.parse`, whether a
  directory exists, and the outcome of a shell command.
- Where the source mutates an object in place, the module has a `class` whose methods state
  their new state. Pure code becomes functions, and loops become methods with invariants that
  are proved against a specification function.

## Model

| member | source | states |
|---|---|---|
| TaskModels.NewTask | python/runtime_failure/models.py:19-27 | a task built from a name and a command has no dependencies, no timeout, one retry and is enabled |
| TaskModels.SameTaskProperties | python/runtime_failure/models.py:29-35 | task equality compares names only: it is reflexive, symmetric and transitive, and equal tasks hash to the same key |
| TaskModels.NewResult | python/runtime_failure/models.py:38-47 | a new result has empty output and error, zero execution time and no retries used |
| TaskScheduler.BuildGraph | python/runtime_failure/tasks/scheduler.py:26-40 | after the graph-building loop, each task's in-degree is the length of its dependency list, every task has an adjacency list, and `graph[d]` lists the tasks naming `d`, in key order, once per naming |
| TaskScheduler.AddTask | python/runtime_failure/tasks/scheduler.py:29-40 | one pass of the outer loop extends the in-degrees and adjacency lists from the first `i` tasks to the first `i + 1` |
| TaskScheduler.AddEdges | python/runtime_failure/tasks/scheduler.py:35-40 | the inner loop appends the task to the list of each dependency and raises its in-degree by the number of dependencies |
| TaskScheduler.InitialQueue | python/runtime_failure/tasks/scheduler.py:43 | the first queue holds exactly the tasks without dependencies, in key order |
| TaskScheduler.Relax | python/runtime_failure/tasks/scheduler.py:50-53 | lowering each neighbour's in-degree and queueing those that reach zero computes the specified relaxation |
| TaskScheduler.NeighbourPending | python/runtime_failure/tasks/scheduler.py:50-53 | a neighbour being relaxed is a task with a positive in-degree, and it reaches zero only when all its dependencies are emitted |
| TaskScheduler.KahnStep | python/runtime_failure/tasks/scheduler.py:46-53 | one pass of the Kahn loop emits the queue head, whose dependencies are all emitted, and keeps the in-degree invariant |
| TaskScheduler.Drain | python/runtime_failure/tasks/scheduler.py:46-53 | the Kahn loop ends with an empty queue, having emitted every queued task, each after its dependencies |
| TaskScheduler.ResolveOrder | python/runtime_failure/tasks/scheduler.py:15-59 | on success the result lists every task once, each after all its dependencies, starting with the tasks without dependencies; it fails with the circular-dependency message only when no such order exists |
| TaskScheduler.ClosedSetBlocksOrder | python/runtime_failure/tasks/scheduler.py:55-57 | when the loop stops with a task left over, no topological order exists |
| TaskScheduler.CycleBlocksOrder | python/runtime_failure/tasks/scheduler.py:55-57 | a cycle of dependencies rules out every execution order |
| TaskScheduler.MissingDependencyBlocksOrder | python/runtime_failure/tasks/scheduler.py:35-40 | a dependency naming no task keeps its dependent's in-degree above zero, so no order exists |
| TaskScheduler.OrderedMappingHasRoot | python/runtime_failure/tasks/scheduler.py:43-59 | a non-empty task set that can be ordered has a task without dependencies |
| TaskScheduler.ValidateDependencies | python/runtime_failure/tasks/scheduler.py:91-109 | the result lists exactly the dependency names that are not tasks, in task order, once per occurrence |
| TaskScheduler.AppendMissing | python/runtime_failure/tasks/scheduler.py:105-107 | the inner loop appends the task's dependencies that are not tasks, in order |
| TaskScheduler.ReportedMissingBlocksOrder | python/runtime_failure/tasks/scheduler.py:91-109 | when the validation reports a missing dependency, resolve_order cannot succeed |
| TaskScheduler.Visit | python/runtime_failure/tasks/scheduler.py:74-81 | the nested dfs marks the name visited; an unknown name raises the AttributeError of `None.dependencies`; a task without dependencies marks only itself |
| TaskScheduler.CountDependencyChains | python/runtime_failure/tasks/scheduler.py:61-89 | the count is the number of tasks without dependencies, or 1 when there is none |
| TaskScheduler.ChainsOfOrderable | python/runtime_failure/tasks/scheduler.py:84-89 | for a non-empty task set that can be ordered the floor of 1 never applies |
| TaskExecutor.JoinTasks | python/runtime_failure/tasks/executor.py:78 | `os.path.join(workspace, "tasks")` extends the workspace path |
| TaskExecutor.WorkingDir | python/runtime_failure/tasks/executor.py:78-86 | the command runs in `<workspace>/tasks` exactly when the workspace is set, non-empty and that directory exists; otherwise in the current directory |
| TaskExecutor.Attempt | python/runtime_failure/tasks/executor.py:41-57 | an attempt succeeds exactly when the command exits with 0, giving its stripped output; a timeout gives the timed-out message; a failing exit gives its stderr when there is one and otherwise the `CalledProcessError` text (the exit status, or the signal that killed the process); any other exception gives its message |
| TaskExecutor.SignalName | python/runtime_failure/tasks/executor.py:53 | a negative return code names a member of `signal.Signals` exactly for the Linux signal numbers 1 to 31, 34 (SIGRTMIN) and 64 (SIGRTMAX) |
| TaskExecutor.KilledProcessMessage | python/runtime_failure/tasks/executor.py:52-53 | a process killed by SIGKILL that wrote nothing on stderr leaves the error "Command '…' died with <Signals.SIGKILL: 9>." |
| TaskExecutor.UnknownSignalMessage | python/runtime_failure/tasks/executor.py:52-53 | a negative return code that names no signal leaves the error "Command '…' died with unknown signal N." |
| TaskExecutor.Execute | python/runtime_failure/tasks/executor.py:27-64 | the retry loop computes the specified run from attempt 0 with no error yet |
| TaskExecutor.ExecuteSpec | python/runtime_failure/tasks/executor.py:37-64 | the result is a success exactly when one of the `retry_count + 1` attempts succeeds; then it carries the first successful attempt's output and the number of failed attempts before it; otherwise every attempt failed, `retries_used` is `retry_count + 1` and the error is the last attempt's |
| TaskExecutor.RunFromFailure | python/runtime_failure/tasks/executor.py:40-64 | a failed run made every remaining attempt and reports the last attempt's error |
| TaskExecutor.AttemptsBound | python/runtime_failure/tasks/executor.py:40 | no run makes more than `retry_count + 1` attempts |
| TaskExecutor.DryRun | python/runtime_failure/tasks/executor.py:99-113 | a dry run succeeds for the task with the "[DRY RUN] Would execute:" output and default fields |
| Engine.AutomationEngine.constructor | python/runtime_failure/engine.py:21-37 | a new engine holds the given tasks, no results, and an executor for the workspace setting (possibly unset) |
| Engine.AutomationEngine.ExecuteAll | python/runtime_failure/engine.py:61-92 | a circular configuration raises the scheduler's error and adds no result; otherwise the tasks run in a valid dependency order and one result per enabled task is appended, in that order |
| Engine.AutomationEngine.RunInOrder | python/runtime_failure/engine.py:66-86 | the loop appends, for each enabled task of the order, its executor result timed with the measured duration, and skips disabled tasks |
| Engine.ExecutionsSpec | python/runtime_failure/engine.py:66-86 | the appended results are exactly one per enabled task of the order, in order, each the timed result of that task |
| Engine.EnabledInSpec | python/runtime_failure/engine.py:69-70 | the tasks run are those of the order that are enabled; none runs twice when the order has no repeats |
| Engine.ResultsOfEnabledTasks | python/runtime_failure/engine.py:69-86 | every appended result belongs to an enabled task of the order and carries its measured time |
| Engine.TimedResultSpec | python/runtime_failure/engine.py:81-85 | the stored result names the task and carries the measured elapsed time |
| Reporter.SummaryDefined | python/runtime_failure/reporter.py:22-28 | the summary fails with "division by zero" exactly for an empty result list, because the success rate divides by the total |
| Reporter.SummarySpec | python/runtime_failure/reporter.py:22-34 | successful plus failed is the total, the success rate is successful / total × 100 and lies in [0, 100], and the average is the mean time |
| Reporter.FailedTasksSpec | python/runtime_failure/reporter.py:65-75 | the failed list holds exactly the results whose status is FAILED, and is no longer than the non-successful count |
| Reporter.FailedTasksAppend | python/runtime_failure/reporter.py:75 | the filter keeps order: filtering a concatenation concatenates the filtered parts |
| Reporter.FailedCountMatches | python/runtime_failure/reporter.py:22-24 | when every result is a success or a failure, the failed list has `total - successful` entries |
| Reporter.AverageTimeSpec | python/runtime_failure/reporter.py:36-50 | the average times the count is the total time (0.0 for no results) |
| Reporter.AverageTimeBounds | python/runtime_failure/reporter.py:36-50 | the average of a non-empty list lies between the smallest and largest bound of its times |
| Expression.Whole | python/test_failure/expression.py:83-86 | the result has the computed value and is an int exactly when that value is whole |
| Expression.InOperatorsIsSubstring | python/test_failure/expression.py:109 | `tokens[-1] in "+-*/"` is a substring test: it holds for the empty string and the runs `+-`, `-*`, `*/`, `+-*` and so on, as well as for single operators |
| Expression.Tokenize | python/test_failure/expression.py:89-120 | the tokenizer loop computes the specified token list or the invalid-character error |
| Expression.TokensSpec | python/test_failure/expression.py:89-120 | tokenizing succeeds exactly when every character is a digit, '.' or an operator; then the tokens spell out the input, each an operator or a number, with no two numbers adjacent; otherwise the error names the first bad character |
| Expression.FeedInv | python/test_failure/expression.py:102-115 | one character either extends the pending number, emits an operator (a '-' after an operator or at the start begins a number) or raises "Invalid character" |
| Expression.MinusStartsNumber | python/test_failure/expression.py:109-112 | a '-' at the start or after an operator, followed by digits, becomes one negative number token |
| Expression.LastTokenIsOperator | python/test_failure/expression.py:103-113 | whenever the tokenizer has emitted tokens, the last emitted one is an operator |
| Expression.IntTextRoundTrip | python/test_failure/expression.py:61-66 | the text of an int result parses back, as `float(...)`, to the same value |
| Expression.EvaluateSimple | python/test_failure/expression.py:43-86 | the left-to-right loop computes the specified fold of the tokens |
| Expression.EmptyExpression | python/test_failure/expression.py:56-59 | "Empty expression" is raised exactly for an empty input |
| Expression.FoldStep | python/test_failure/expression.py:64-81 | each step applies the operator to the running result and the next operand, or stops with its error |
| Expression.DivisionByZero | python/test_failure/expression.py:74-76 | dividing by an operand equal to zero raises "Division by zero" |
| Expression.LeftToRight | python/test_failure/expression.py:64-81 | as written `a + b * c` evaluates to `(a + b) * c` |
| Expression.LeftToRightExample | python/test_failure/expression.py:22-26 | "2 + 3 * 4" gives 20, where the docstring promises 14 |
| Expression.PrecedenceExample | python/test_failure/expression.py:22-26 | with the usual precedence `a + b * c` is `a + (b * c)`, so "2 + 3 * 4" gives 14 |
| Expression.MultiplicativeAgrees | python/test_failure/expression.py:64-81 | on a run of only `*` and `/` the precedence evaluator agrees with the left-to-right fold |
| Expression.AdditiveAgrees | python/test_failure/expression.py:64-81 | on a run of only `+` and `-` the precedence evaluator agrees with the left-to-right fold |
| Expression.RemoveSpaces | python/test_failure/expression.py:29 | the result keeps every character but the spaces |
| Expression.FindGroupSpec | python/test_failure/expression.py:34 | the search finds the leftmost '(' followed by a non-empty run free of parentheses and a ')', or reports that there is none |
| Expression.ReplacedRemovesOpen | python/test_failure/expression.py:35-38 | replacing a found group by its value's text removes exactly one '(' |
| Expression.ReduceTurn | python/test_failure/expression.py:32-40 | one turn of the loop: without '(' the simple evaluation finishes; with a '(' but no group the loop never ends; with a group its inner error is raised, or its value is spliced in |
| Expression.EvaluateExpression | python/test_failure/expression.py:10-40 | the evaluation computes the specified reduction of the space-free input: a value, a raised error, or a loop that never ends |
| Expression.ValidateExpression | python/test_failure/expression.py:123-152 | valid exactly when the depth never drops below zero, ends at zero, and every character is a digit, operator, parenthesis, '.' or space |
| Expression.ValidTokenizes | python/test_failure/expression.py:123-152 | an input without parentheses that passes validation tokenizes without error |
| Expression.EmptyGroupValid | python/test_failure/expression.py:123-152 | "()" passes validation |
| Expression.EmptyGroupSpins | python/test_failure/expression.py:32-38 | evaluating "()" never ends: the loop finds no non-empty group and keeps the '(' |
| Statistics.Mean | python/test_failure/statistics.py:8-22 | as written, an empty list raises ZeroDivisionError (the docstring promises ValueError); otherwise the mean times the count is the sum |
| Statistics.CheckedMean | python/test_failure/statistics.py:18-22 | with the documented check, an empty list raises ValueError, and any other list gives the same mean |
| Statistics.MeanExamples | python/test_failure/statistics.py:8-22 | the means of [1..5], [10, 20, 30] and [42] are 3, 20 and 42 |
| Statistics.MedianSpec | python/test_failure/statistics.py:25-49 | an empty list raises the median ValueError; otherwise the result is an element of the list, the one at index `n // 2` of its sorted permutation |
| Statistics.SortedPermutationUnique | python/test_failure/statistics.py:41 | `sorted(numbers)` is determined: two sorted permutations of the same list are equal |
| Statistics.MedianEvenAsWritten | python/test_failure/statistics.py:45-47 | as written, the median of [1, 2, 3, 4] is 3 and of [1..6] is 4 |
| Statistics.TrueMedianSpec | python/test_failure/statistics.py:45-49 | the corrected median equals the written one for odd lengths and, for even lengths, lies between the two middle sorted values |
| Statistics.TrueMedianEvenExamples | python/test_failure/statistics.py:45-47 | the corrected median of [1, 2, 3, 4] is 2.5 and of [1..6] is 3.5 |
| Statistics.MedianOddExamples | python/test_failure/statistics.py:48-49 | the median of [1..5] is 3 and of [1, 3, 2] is 2 |
| Statistics.MaxFrequency | python/test_failure/statistics.py:115 | the result bounds every frequency and is the frequency of some key |
| Statistics.WithFrequency | python/test_failure/statistics.py:116 | the comprehension keeps exactly the keys with the given frequency, each once |
| Statistics.CalculateMode | python/test_failure/statistics.py:98-118 | an empty list raises the mode ValueError; otherwise the result is sorted, without repeats, and holds exactly the values that occur most often |
| Statistics.ModesAreModes | python/test_failure/statistics.py:111-116 | counting into the dictionary and keeping the keys of maximal count yields exactly the most frequent values, once each |
| Repository.BookRepository.constructor | python/multi_file_bug/repository.py:11-13 | a new repository is empty and its next id is 1 |
| Repository.BookRepository.GetAll | python/multi_file_bug/repository.py:15-17 | all stored books, in insertion order |
| Repository.BookRepository.GetById | python/multi_file_bug/repository.py:19-24 | the book stored under the id, or None when there is none |
| Repository.BookRepository.GetByAuthor | python/multi_file_bug/repository.py:26-28 | exactly the stored books of that author |
| Repository.BookRepository.Search | python/multi_file_bug/repository.py:50-53 | exactly the stored books whose lower-cased title contains the lower-cased query |
| Repository.BookRepository.Create | python/multi_file_bug/repository.py:30-35 | the book gets the next id, which is above every stored id, is stored under it, and the counter advances by one |
| Repository.BookRepository.Update | python/multi_file_bug/repository.py:37-41 | a stored id is overwritten with the book; an unknown id changes nothing; the book is returned either way |
| Repository.BookRepository.Delete | python/multi_file_bug/repository.py:43-48 | returns whether the id was stored, and removes it; the counter is not reused |
| Repository.RemoveKeepsIncreasing | python/multi_file_bug/repository.py:46 | deleting a key keeps the other keys in their increasing order and adds none |
| Repository.AuthorRepository.constructor | python/multi_file_bug/repository.py:59-61 | a new repository is empty and its next id is 1 |
| Repository.AuthorRepository.GetAll | python/multi_file_bug/repository.py:63-65 | all stored authors, in insertion order |
| Repository.AuthorRepository.GetById | python/multi_file_bug/repository.py:67-69 | the author stored under the id, or None |
| Repository.AuthorRepository.GetByName | python/multi_file_bug/repository.py:71-77 | the loop returns the first author, in insertion order, whose lower-cased name contains the lower-cased query, or None |
| Repository.FirstNamed | python/multi_file_bug/repository.py:71-77 | a found author matches the query, and None means no author matches |
| Repository.FirstNamedIsFirst | python/multi_file_bug/repository.py:74-76 | the found author is preceded by no matching author |
| Repository.AuthorRepository.Create | python/multi_file_bug/repository.py:79-84 | the author gets the next id, above every stored id, is stored under it, and the counter advances |
| Repository.AuthorRepository.Update | python/multi_file_bug/repository.py:86-90 | a stored id is overwritten; an unknown id changes nothing |
| Repository.AuthorRepository.Delete | python/multi_file_bug/repository.py:92-97 | returns whether the id was stored, and removes it |
| PipelineQueue.Bounded | python/hypothesis_debugging/pipeline/queue.py:13 | a bounded deque keeps the last `maxlen` items, all of them when there are fewer |
| PipelineQueue.BoundedAppend | python/hypothesis_debugging/pipeline/queue.py:20-25 | appending items to a full bounded deque one call at a time gives the same contents as one append of them all |
| PipelineQueue.DataQueue.constructor | python/hypothesis_debugging/pipeline/queue.py:12-15 | a new queue is empty with nothing processed |
| PipelineQueue.DataQueue.Put | python/hypothesis_debugging/pipeline/queue.py:17-20 | the item is appended; when the queue is at its maximum size the oldest item is dropped |
| PipelineQueue.DataQueue.PutBatch | python/hypothesis_debugging/pipeline/queue.py:22-25 | the items are appended in order, and only the last `max_size` items remain |
| PipelineQueue.DataQueue.Get | python/hypothesis_debugging/pipeline/queue.py:27-34 | on an empty queue None and no change; otherwise the oldest item is removed and returned and the processed count goes up by one |
| PipelineQueue.BatchSize | python/hypothesis_debugging/pipeline/queue.py:40 | the number of items taken is min(count, size), and none for a negative count |
| PipelineQueue.DataQueue.GetBatch | python/hypothesis_debugging/pipeline/queue.py:36-43 | the batch is the oldest min(count, size) items in order, they leave the queue, and the processed count rises by as many |
| PipelineQueue.DataQueue.Size | python/hypothesis_debugging/pipeline/queue.py:45-48 | the number of queued items, never above the maximum size |
| PipelineQueue.DataQueue.ProcessedCount | python/hypothesis_debugging/pipeline/queue.py:50-52 | the number of items handed out by get and get_batch |
| PipelineQueue.DataQueue.Clear | python/hypothesis_debugging/pipeline/queue.py:54-57 | the queue is emptied and the processed count is kept |
| Tiers.TiersContiguous | java/test_failure/src/main/java/com/leaderboard/model/PlayerTier.java:4-8 | the bands start at 0, end at Long.MAX_VALUE, are non-empty and each begins one above the previous one's end |
| Tiers.TiersDisjoint | java/test_failure/src/main/java/com/leaderboard/model/PlayerTier.java:4-8 | every band lies wholly below each later band |
| Tiers.FirstHolding | java/test_failure/src/main/java/com/leaderboard/model/PlayerTier.java:22-26 | the loop's hit is a listed tier whose band holds the score, and a miss means no listed band holds it |
| Tiers.Covered | java/test_failure/src/main/java/com/leaderboard/model/PlayerTier.java:21-28 | every score from 0 to Long.MAX_VALUE is found by the loop, so the BRONZE fallback is reached only for negative scores |
| Tiers.FromScore | java/test_failure/src/main/java/com/leaderboard/model/PlayerTier.java:21-28 | a non-negative score gets the tier whose band holds it, a negative score gets BRONZE |
| Tiers.FromScoreUnique | java/test_failure/src/main/java/com/leaderboard/model/PlayerTier.java:21-28 | the tier whose band holds the score is the one fromScore returns |
| Tiers.FromScoreExamples | java/test_failure/src/main/java/com/leaderboard/model/PlayerTier.java:4-8 | 999 is BRONZE, 1000 SILVER, 30000 DIAMOND and -100 BRONZE |
| Tiers.TierAfterUpdateVersusFromScore | java/test_failure/src/main/java/com/leaderboard/service/LeaderboardService.java:44-58 | the service's own strict thresholds agree with fromScore everywhere except 1000, 5000, 15000 and 30000, where they give the tier below |
| Tiers.ValueOf | java/test_failure/src/main/java/com/leaderboard/model/PlayerTier.java:3-8 | valueOf succeeds only on a constant's exact name and returns that constant |
| Tiers.ValueOfName | java/test_failure/src/main/java/com/leaderboard/service/LeaderboardService.java:109 | valueOf inverts the constant's name, and the lower-case "silver" is rejected |
| Players.Joined | java/test_failure/src/main/java/com/leaderboard/model/Player.java:17-26 | a new player has the given id and name, zero score, rank, games and wins, BRONZE tier and the current time as last activity |
| Players.Scored | java/test_failure/src/main/java/com/leaderboard/model/Player.java:53-56 | only the score and the activity time change; the score moves by the points, wrapping around in 64 bits |
| Players.Played | java/test_failure/src/main/java/com/leaderboard/model/Player.java:58-64 | games played rise by one and wins by one exactly when the game was won; nothing else but the activity time changes |
| Players.PlayedKeepsWinsWithinGames | java/test_failure/src/main/java/com/leaderboard/model/Player.java:58-64 | recording a game keeps 0 <= wins <= games played |
| Players.ScoredGoesNegative | java/test_failure/src/main/java/com/leaderboard/model/Player.java:53-56 | a score of 100 minus 200 points becomes -100: nothing stops a negative score |
| Players.FlooredScore | java/test_failure/src/test/java/com/leaderboard/LeaderboardServiceTest.java:37-44 | the corrected update never leaves a negative score and otherwise adds the points |
| Players.FlooredScoreExample | java/test_failure/src/test/java/com/leaderboard/LeaderboardServiceTest.java:37-44 | with the floor, 100 minus 200 is 0 and 100 plus 50 is 150 |
| Players.Player.constructor | java/test_failure/src/main/java/com/leaderboard/model/Player.java:17-26 | the new object's state is the fresh player's statistics |
| Players.Player.AddScore | java/test_failure/src/main/java/com/leaderboard/model/Player.java:53-56 | the object's state becomes the scored statistics |
| Players.Player.RecordGame | java/test_failure/src/main/java/com/leaderboard/model/Player.java:58-64 | the object's state becomes the statistics after one more game |
| Players.Player.Equals | java/test_failure/src/main/java/com/leaderboard/model/Player.java:67-72 | two players are equal exactly when the other is non-null and has the same id |
| Leaderboard.ScoreUpdated | java/test_failure/src/main/java/com/leaderboard/service/LeaderboardService.java:32-58 | a score change applies the player's addScore and then sets the tier from the service's own thresholds |
| Leaderboard.UpdatedTierAtBoundary | java/test_failure/src/test/java/com/leaderboard/LeaderboardServiceTest.java:27-33 | a new player given 1000 points stays BRONZE although fromScore says SILVER |
| Leaderboard.RankOrderEnumerates | java/test_failure/src/main/java/com/leaderboard/service/LeaderboardService.java:198-202 | the ranking lists every player once |
| Leaderboard.RankOrderDescending | java/test_failure/src/main/java/com/leaderboard/service/LeaderboardService.java:202 | the ranking is by score, highest first |
| Leaderboard.RankOrderStable | java/test_failure/src/main/java/com/leaderboard/service/LeaderboardService.java:202 | players with equal scores keep their enumeration order, as List.sort is stable |
| Leaderboard.IndexOf | java/test_failure/src/main/java/com/leaderboard/service/LeaderboardService.java:82 | indexOf of a ranked player is a position holding that player |
| Leaderboard.TopCount | java/test_failure/src/main/java/com/leaderboard/service/LeaderboardService.java:63-69 | getTopPlayers returns at most as many players as are ranked |
| Leaderboard.TopCountOneShort | java/test_failure/src/main/java/com/leaderboard/service/LeaderboardService.java:67 | asking for n of at least n players gives n - 1 of them, and asking for 0 raises |
| Leaderboard.CorrectedTopCount | java/test_failure/src/test/java/com/leaderboard/LeaderboardServiceTest.java:50-68 | the corrected count is min(n, size) and fails only for a negative n |
| Leaderboard.Window | java/test_failure/src/main/java/com/leaderboard/service/LeaderboardService.java:87-90 | the neighbourhood is never longer than the ranking |
| Leaderboard.WindowAsWritten | java/test_failure/src/main/java/com/leaderboard/service/LeaderboardService.java:87-90 | a range reaching before the first rank raises IndexOutOfBoundsException; a negative range raises IllegalArgumentException, or IndexOutOfBoundsException when the start wraps past the int range; otherwise the player is in the result |
| Leaderboard.ClippedWindow | java/test_failure/src/test/java/com/leaderboard/LeaderboardServiceTest.java:83-96 | the clipped neighbourhood holds the player, has at most 2 * range + 1 entries and starts no earlier than range places before the player |
| Leaderboard.WinRate | java/test_failure/src/main/java/com/leaderboard/service/LeaderboardService.java:96-103 | the integer division raises exactly when no game was played |
| Leaderboard.WinRateTruncates | java/test_failure/src/main/java/com/leaderboard/service/LeaderboardService.java:102 | any record with fewer wins than games has a win rate of 0 |
| Leaderboard.TrueWinRate | java/test_failure/src/test/java/com/leaderboard/LeaderboardServiceTest.java:101-124 | the corrected rate is wins * 100 / games, and 0 with no games |
| Leaderboard.TrueWinRateBounds | java/test_failure/src/test/java/com/leaderboard/LeaderboardServiceTest.java:101-113 | the corrected rate lies between 0 and 100, and 2 wins out of 3 gives between 60 and 70 |
| Leaderboard.ScoreRangeBounds | java/test_failure/src/main/java/com/leaderboard/service/LeaderboardService.java:154-158 | the strict filter differs from the inclusive one exactly at the two bounds |
| Leaderboard.Merged | java/test_failure/src/main/java/com/leaderboard/service/LeaderboardService.java:163-180 | the merged primary takes the secondary's score and the larger games and wins, and keeps its other fields |
| Leaderboard.MergedBySum | java/test_failure/src/test/java/com/leaderboard/LeaderboardServiceTest.java:165-186 | the corrected merge adds score, games and wins |
| Leaderboard.MergeExample | java/test_failure/src/test/java/com/leaderboard/LeaderboardServiceTest.java:165-186 | with the test's accounts the merge as written gives 500, 20 and 15, and the summing merge 1500, 30 and 20 |
| Leaderboard.ScoresOf | java/test_failure/src/main/java/com/leaderboard/service/LeaderboardService.java:202 | the sort key of each player is its score |
| Leaderboard.RerankedSpec | java/test_failure/src/main/java/com/leaderboard/service/LeaderboardService.java:205-207 | assigning ranks changes no score, gives each player its position in the order, and changes nothing when ranks already hold |
| Leaderboard.AssignRanks | java/test_failure/src/main/java/com/leaderboard/service/LeaderboardService.java:205-207 | the loop sets each ranked player's rank to its index |
| Leaderboard.Bonused | java/test_failure/src/main/java/com/leaderboard/service/LeaderboardService.java:185-191 | exactly the chosen players get the bonus through updateScore, the others are unchanged |
| Leaderboard.BonusedStep | java/test_failure/src/main/java/com/leaderboard/service/LeaderboardService.java:190 | awarding the bonus to one more player extends the previous board by that player's update |
| Leaderboard.Percentile | java/test_failure/src/main/java/com/leaderboard/service/LeaderboardService.java:145-148 | rank / total * 100 lies in [0, 100) and is 0 exactly for rank 0 |
| Leaderboard.LeaderboardService.constructor | java/test_failure/src/main/java/com/leaderboard/service/LeaderboardService.java:13-15 | the board starts with no players, no ranking and ranks dirty |
| Leaderboard.LeaderboardService.AddPlayer | java/test_failure/src/main/java/com/leaderboard/service/LeaderboardService.java:22-27 | the new player replaces any player with that id and the ranks become dirty |
| Leaderboard.LeaderboardService.UpdateScore | java/test_failure/src/main/java/com/leaderboard/service/LeaderboardService.java:32-39 | a present player gets the score update and the ranks become dirty; an unknown id changes nothing |
| Leaderboard.LeaderboardService.UpdateRanksIfNeeded | java/test_failure/src/main/java/com/leaderboard/service/LeaderboardService.java:193-210 | afterwards the ranking is all players by score and each player's rank is its index |
| Leaderboard.LeaderboardService.GetTopPlayers | java/test_failure/src/main/java/com/leaderboard/service/LeaderboardService.java:63-69 | the first TopCount players of the ranking, ranked 0, 1, … and by descending score; a raise exactly when TopCount raises |
| Leaderboard.LeaderboardService.GetPlayersAround | java/test_failure/src/main/java/com/leaderboard/service/LeaderboardService.java:74-91 | an empty list for an unknown id, otherwise the window around the player's rank, with `subList`'s error for a bad start or range |
| Leaderboard.LeaderboardService.GetWinRate | java/test_failure/src/main/java/com/leaderboard/service/LeaderboardService.java:96-103 | 0 for an unknown player, a raise for a player with no games |
| Leaderboard.LeaderboardService.GetPlayersByTier | java/test_failure/src/main/java/com/leaderboard/service/LeaderboardService.java:108-114 | exactly the players whose tier is the named one, and a raise for a name valueOf rejects |
| Leaderboard.LeaderboardService.GetPercentile | java/test_failure/src/main/java/com/leaderboard/service/LeaderboardService.java:137-149 | 0 for an unknown player, otherwise the percentile of its rank among all ranked players |
| Leaderboard.LeaderboardService.FindPlayersInScoreRange | java/test_failure/src/main/java/com/leaderboard/service/LeaderboardService.java:154-158 | exactly the players whose score lies strictly between the bounds |
| Leaderboard.LeaderboardService.MergePlayers | java/test_failure/src/main/java/com/leaderboard/service/LeaderboardService.java:163-180 | null unless both ids are present; otherwise the primary becomes the merge, the secondary is removed and the ranks become dirty |
| Leaderboard.LeaderboardService.AwardBonusToTop | java/test_failure/src/main/java/com/leaderboard/service/LeaderboardService.java:185-191 | after ranking, the first topN ranked players get the bonus, and a negative topN raises; the ranks are dirty again exactly when some player got the bonus |
| Leaderboard.LeaderboardService.AwardEach | java/test_failure/src/main/java/com/leaderboard/service/LeaderboardService.java:188-190 | each listed player gets the bonus once, and the ranks are dirty after any award and untouched when the list is empty |
| Leaderboard.LeaderboardService.GetPlayer | java/test_failure/src/main/java/com/leaderboard/service/LeaderboardService.java:212-214 | the player stored under the id (its state equals the stored state), or null exactly when the id is unknown |
| Leaderboard.LeaderboardService.RecordGame | java/test_failure/src/main/java/com/leaderboard/model/Player.java:58-64 | `recordGame` on the board's own player object adds a game, and a win when won; score, ranks and the ranking flag stay as they were, and an unknown id changes nothing |
| Leaderboard.LeaderboardService.SetGamesPlayed | java/test_failure/src/main/java/com/leaderboard/model/Player.java:42 | `setGamesPlayed` on the board's own player object replaces the game count and nothing else |
| Leaderboard.LeaderboardService.SetWins | java/test_failure/src/main/java/com/leaderboard/model/Player.java:45 | `setWins` on the board's own player object replaces the win count and nothing else |
| Leaderboard.RecordedGamesWinRate | java/test_failure/src/test/java/com/leaderboard/LeaderboardServiceTest.java:101-111 | a new player who wins, loses and wins has 3 games and 2 wins, and the board's win rate for them is 0 |
| Leaderboard.FirstInactive | java/test_failure/src/main/java/com/leaderboard/service/LeaderboardService.java:122-123 | the place of the first player, in iteration order, last active more than 30 days before now; every player before it is active |
| Leaderboard.TwoInactiveRaise | java/test_failure/src/main/java/com/leaderboard/service/LeaderboardService.java:122-125 | when the first two players are inactive, the first inactive one is not the last player, so the loop raises |
| Leaderboard.LeaderboardService.RemoveInactivePlayers | java/test_failure/src/main/java/com/leaderboard/service/LeaderboardService.java:119-132 | with no inactive player nothing changes and 0 is returned; otherwise the first inactive player is removed, and the call returns 1 with the ranks dirty only when that player was the last one, and otherwise raises ConcurrentModificationException, leaving a clean ranking that still names the removed player |
| Leaderboard.ActivePlayers | java/test_failure/src/main/java/com/leaderboard/service/LeaderboardService.java:119-132 | the players kept are exactly those active at `now`, with their states |
| Leaderboard.ActiveIds | java/test_failure/src/main/java/com/leaderboard/service/LeaderboardService.java:119-132 | the ids kept are exactly the listed ids of active players |
| Leaderboard.ActiveEnumerates | java/test_failure/src/main/java/com/leaderboard/service/LeaderboardService.java:119-132 | the kept ids list the kept players once each, and they are fewer by the number of players dropped |
| Leaderboard.LeaderboardService.RemoveInactiveSafely | java/test_failure/src/main/java/com/leaderboard/service/LeaderboardService.java:119-132 | every inactive player is removed and every active one kept in its order; the count returned is the number removed and the ranks become dirty |
| Leaderboard.LeaderboardService.GetPlayerCount | java/test_failure/src/main/java/com/leaderboard/service/LeaderboardService.java:216-218 | the number of stored players |
| TimeSlots.FromDuration | java/logic_error/src/main/java/com/scheduler/model/TimeSlot.java:17-20 | the slot starts at the given time and lasts the given duration |
| TimeSlots.SplitAt | java/logic_error/src/main/java/com/scheduler/model/TimeSlot.java:59-64 | the two halves meet at the split time, keep the outer bounds and their durations add up to the whole |
| TimeSlots.SplitPartitions | java/logic_error/src/main/java/com/scheduler/model/TimeSlot.java:44-46 | splitting inside a slot gives two well-formed halves, and each time the slot contains is in exactly one of them |
| TimeSlots.CanFitIsStrict | java/logic_error/src/main/java/com/scheduler/model/TimeSlot.java:51-54 | a slot exactly as long as the meeting cannot hold it; one minute longer can |
| TimeSlots.OverlapsNeverHolds | java/logic_error/src/main/java/com/scheduler/model/TimeSlot.java:36-39 | for well-formed slots of which at least one is non-empty, overlaps is always false |
| TimeSlots.OverlapsMissesSharedHour | java/logic_error/src/main/java/com/scheduler/model/TimeSlot.java:36-39 | 9:00-11:00 and 10:00-12:00 both contain 10:00, yet overlaps says no |
| TimeSlots.IntersectsIffShared | java/logic_error/src/main/java/com/scheduler/model/TimeSlot.java:32-39 | the corrected test holds exactly when some time lies in both slots |
| TimeSlots.IntersectsExamples | java/logic_error/src/main/java/com/scheduler/model/TimeSlot.java:32-39 | back-to-back slots do not intersect; a slot intersects itself |
| MeetingScheduler.Participants | java/logic_error/src/main/java/com/scheduler/service/SchedulerService.java:108-109 | the attendees followed by the organizer |
| MeetingScheduler.DateOf | java/logic_error/src/main/java/com/scheduler/service/SchedulerService.java:67 | the calendar day containing the time |
| MeetingScheduler.DayOfWeek | java/logic_error/src/main/java/com/scheduler/service/SchedulerService.java:48-51 | the ISO day number, 1 for Monday to 7 for Sunday |
| MeetingScheduler.WeekendExamples | java/logic_error/src/main/java/com/scheduler/service/SchedulerService.java:48-51 | 1970-01-01 was a Thursday, Saturday and Sunday are weekend days, Friday is not, and the pattern repeats weekly |
| MeetingScheduler.MeetingsOf | java/logic_error/src/main/java/com/scheduler/service/SchedulerService.java:229-231 | a user without an entry has no meetings |
| MeetingScheduler.AddToAllSpec | java/logic_error/src/main/java/com/scheduler/service/SchedulerService.java:124-126 | after adding, each user's list gains the meeting once for each time the user is a participant, and the other lists are unchanged |
| MeetingScheduler.Gathered | java/logic_error/src/main/java/com/scheduler/service/SchedulerService.java:65-66 | exactly the meetings of any participant |
| MeetingScheduler.OnDate | java/logic_error/src/main/java/com/scheduler/service/SchedulerService.java:67 | exactly the meetings that start on the date |
| MeetingScheduler.DayMeetingsSpec | java/logic_error/src/main/java/com/scheduler/service/SchedulerService.java:65-69 | the day's meetings are a sorted-by-start rearrangement of the participants' meetings on that date |
| MeetingScheduler.Gap | java/logic_error/src/main/java/com/scheduler/service/SchedulerService.java:78-88 | at most one free slot before a meeting |
| MeetingScheduler.FreeSlotsSpec | java/logic_error/src/main/java/com/scheduler/service/SchedulerService.java:71-99 | every free slot can fit the meeting, starts at the day start or at a meeting's end, and ends at the day end or 15 minutes before a meeting |
| MeetingScheduler.FreeSlotsNestedMeeting | java/logic_error/src/main/java/com/scheduler/service/SchedulerService.java:90 | with 9:00-12:00 and 10:00-10:30 booked the slot 10:30-17:00 is offered although it intersects the first meeting |
| MeetingScheduler.FreeSlotsAfterBusyAreFree | java/logic_error/src/main/java/com/scheduler/service/SchedulerService.java:71-99 | when the cursor moves to the latest end seen so far, no offered slot intersects any meeting and none starts before the day start |
| MeetingScheduler.FreeSlotsStep | java/logic_error/src/main/java/com/scheduler/service/SchedulerService.java:73-91 | one loop turn emits the gap before the meeting and moves the cursor to the meeting's end |
| MeetingScheduler.AvailableStep | java/logic_error/src/main/java/com/scheduler/service/SchedulerService.java:32-40 | one turn over a date appends that date's slots, or none on a weekend |
| MeetingScheduler.AvailableOnWeekdays | java/logic_error/src/main/java/com/scheduler/service/SchedulerService.java:32-40 | every slot found lies on a weekday from the start date up to, not including, the end date |
| MeetingScheduler.WeekdaysAvailable | java/logic_error/src/main/java/com/scheduler/service/SchedulerService.java:32-40 | every free slot of every weekday in the range is found |
| MeetingScheduler.RoomSizeBuckets | java/logic_error/src/main/java/com/scheduler/service/SchedulerService.java:159-170 | 4 people get the room labelled 5-8, and 8 people the room labelled 9-15 |
| MeetingScheduler.TotalMinutesBetween | java/logic_error/src/main/java/com/scheduler/service/SchedulerService.java:181-184 | the summed minutes lie between the count times the smallest and the count times the largest |
| MeetingScheduler.SuggestMeetingTime | java/logic_error/src/main/java/com/scheduler/service/SchedulerService.java:175-189 | 10:00 without preferences, otherwise the whole-minute average of the preferred times |
| MeetingScheduler.SuggestionBetween | java/logic_error/src/main/java/com/scheduler/service/SchedulerService.java:175-189 | the suggestion lies between the earliest and the latest preferred minute |
| MeetingScheduler.SuggestionAcrossMidnight | java/logic_error/src/main/java/com/scheduler/service/SchedulerService.java:180 | 23:00 and 01:00 average to noon, not midnight |
| MeetingScheduler.InRangeOrder | java/logic_error/src/main/java/com/scheduler/service/SchedulerService.java:195-202 | the stream filter keeps the meetings' order and repeats: filtering a concatenation is the concatenation of the filtered parts |
| MeetingScheduler.InRangeSingle | java/logic_error/src/main/java/com/scheduler/service/SchedulerService.java:198-200 | a single meeting is kept exactly when its date lies from the start date to the end date |
| MeetingScheduler.InRange | java/logic_error/src/main/java/com/scheduler/service/SchedulerService.java:194-203 | exactly the meetings dated from the start date to the end date inclusive; order and repeats are `MeetingScheduler.InRangeOrder` |
| MeetingScheduler.SchedulerService.constructor | java/logic_error/src/main/java/com/scheduler/service/SchedulerService.java:20 | no user has meetings |
| MeetingScheduler.SchedulerService.ScheduleMeeting | java/logic_error/src/main/java/com/scheduler/service/SchedulerService.java:107-129 | true exactly when no participant has a meeting that overlaps; only then is the meeting added to every participant |
| MeetingScheduler.NeverClashes | java/logic_error/src/main/java/com/scheduler/service/SchedulerService.java:111-121 | with well-formed slots and a non-empty new meeting, the conflict check never fires |
| MeetingScheduler.SchedulerService.FindAvailableSlotsForDay | java/logic_error/src/main/java/com/scheduler/service/SchedulerService.java:56-102 | the loop returns the day's free slots as defined by the free-slot function |
| MeetingScheduler.SchedulerService.FindAvailableSlots | java/logic_error/src/main/java/com/scheduler/service/SchedulerService.java:26-43 | the loop returns the free slots of each weekday in the range, in date order |
| MeetingScheduler.SchedulerService.GetMeetingsInRange | java/logic_error/src/main/java/com/scheduler/service/SchedulerService.java:194-203 | exactly the user's meetings dated within the range |
| QueueTask.Task.constructor | java/dependency_issue/src/main/java/com/taskqueue/model/Task.java:49-56 | a new task is PENDING with priority 0, at most 3 retries, none used, the given id and creation time |
| QueueTask.Task.Named | java/dependency_issue/src/main/java/com/taskqueue/model/Task.java:58-63 | the defaults of the plain constructor plus the given name and queue |
| QueueTask.Task.CanRetry | java/dependency_issue/src/main/java/com/taskqueue/model/Task.java:105-107 | a retry is allowed exactly while fewer retries were used than allowed |
| QueueTask.Task.IncrementRetry | java/dependency_issue/src/main/java/com/taskqueue/model/Task.java:109-111 | the retry count rises by one, wrapping around at the 32-bit maximum, and nothing else changes; after an allowed retry the count stays within the maximum |
| QueueTask.RetriesBounded | java/dependency_issue/src/main/java/com/taskqueue/model/Task.java:105-111 | retrying only while canRetry holds, after any number of failures the count is the smaller of start plus failures and the maximum |
| QueueTask.DefaultRetries | java/dependency_issue/src/main/java/com/taskqueue/model/Task.java:54 | with the default of 3, two failures use two retries and three or ten failures use exactly three |
| EntitySystem.DynamicArray.constructor | cpp/memory_issue/include/EntitySystem.h:266-268 | a new array is empty with a fresh buffer of the requested capacity |
| EntitySystem.DynamicArray.Resize | cpp/memory_issue/include/EntitySystem.h:286-296 | the capacity doubles into a fresh buffer and the elements are copied unchanged |
| EntitySystem.DynamicArray.Push | cpp/memory_issue/include/EntitySystem.h:275-280 | the value is appended, and the capacity doubles exactly when the array was full |
| EntitySystem.DynamicArray.Get | cpp/memory_issue/include/EntitySystem.h:282-284 | reading an index below the size gives that element |
| EntitySystem.DynamicArray.Set | cpp/memory_issue/include/EntitySystem.h:282-284 | writing through the reference replaces exactly that element |
| EntitySystem.DynamicArray.Pop | cpp/memory_issue/include/EntitySystem.h:298-300 | the last element is returned and removed; the buffer and capacity stay |
| EntitySystem.PushThenPop | cpp/memory_issue/include/EntitySystem.h:275-300 | pop right after push returns the pushed value and restores the elements |
| EntitySystem.Texture.constructor | cpp/memory_issue/include/EntitySystem.h:235-237 | a new texture holds one reference |
| EntitySystem.Texture.AddRef | cpp/memory_issue/include/EntitySystem.h:243-245 | the reference count rises by one |
| EntitySystem.Texture.Release | cpp/memory_issue/include/EntitySystem.h:247-253 | the count drops by one and the texture is freed exactly when it reaches zero |
| EntitySystem.ShareAndRelease | cpp/memory_issue/include/EntitySystem.h:243-253 | after any number of matched addRef and release calls and the creator's release, the texture is freed with count zero |
| EntitySystem.NewTransform | cpp/memory_issue/include/EntitySystem.h:30-33 | a transform component is named "Transform" |
| EntitySystem.NewSprite | cpp/memory_issue/include/EntitySystem.h:47-50 | a sprite component is named "Sprite" and keeps its size |
| EntitySystem.NewScript | cpp/memory_issue/include/EntitySystem.h:65-67 | a script component is named "Script" |
| EntitySystem.FirstNamed | cpp/memory_issue/include/EntitySystem.h:112-119 | the position of the first component with the name, or none when no component has it |
| EntitySystem.NotEarlier | cpp/memory_issue/include/EntitySystem.h:113-117 | a named component with no earlier namesake is the one found |
| EntitySystem.FirstIndex | cpp/memory_issue/include/EntitySystem.h:137-143 | the position of the first occurrence of the child, or none when absent |
| EntitySystem.FirstIndexIs | cpp/memory_issue/include/EntitySystem.h:137-143 | an occurrence with no earlier occurrence is the one found |
| EntitySystem.Entity.constructor | cpp/memory_issue/include/EntitySystem.h:96 | a new entity has the name, no components, no parent and no children |
| EntitySystem.Entity.AddComponent | cpp/memory_issue/include/EntitySystem.h:108-110 | the component is appended and nothing else changes |
| EntitySystem.Entity.GetComponent | cpp/memory_issue/include/EntitySystem.h:112-119 | the loop returns the first component with the name, or null |
| EntitySystem.Entity.RemoveComponent | cpp/memory_issue/include/EntitySystem.h:121-129 | only the first component with the name is removed; without one nothing changes |
| EntitySystem.Entity.AddChild | cpp/memory_issue/include/EntitySystem.h:131-134 | the child is appended and its parent becomes this entity; the child's name and components, and (for a child other than this entity) its children and this entity's parent, are unchanged |
| EntitySystem.Entity.RemoveChild | cpp/memory_issue/include/EntitySystem.h:136-144 | the first occurrence of the child is removed and its parent cleared; an absent child changes nothing; the child's name and components, and (for a child other than this entity) its children and this entity's parent, are unchanged |
| EntitySystem.EntityManager.constructor | cpp/memory_issue/include/EntitySystem.h:174-175 | a new manager has no entities and next id 0 |
| EntitySystem.EntityManager.CreateEntity | cpp/memory_issue/include/EntitySystem.h:186-190 | the new entity gets the next id, which was unused, and the counter advances; other entries are unchanged |
| EntitySystem.EntityManager.GetEntity | cpp/memory_issue/include/EntitySystem.h:192-198 | the entity stored under the id, or null |
| EntitySystem.EntityManager.DestroyEntity | cpp/memory_issue/include/EntitySystem.h:200-206 | the id's entry is removed; the counter is kept |
| EntitySystem.EntityManager.Clear | cpp/memory_issue/include/EntitySystem.h:208-219 | the table is emptied and the counter is kept |
| EntitySystem.CreateMany | cpp/memory_issue/include/EntitySystem.h:186-190 | on a new manager the entities created get ids 0, 1, 2, … and exactly those ids are used |
| Discounts.CodeTable | javascript/test_failure/src/discounts.js:7-13 | exactly the five listed codes have an entry |
| Discounts.PercentOf | javascript/test_failure/src/discounts.js:32-34 | the percentage of an amount rounded to the nearest cent, never more than the amount for a rate up to 100 |
| Discounts.ApplyDiscount | javascript/test_failure/src/discounts.js:22-43 | an unknown code gives 0, a percentage code the rounded percentage of the subtotal, and a fixed code its full value |
| Discounts.ValidateDiscountCode | javascript/test_failure/src/discounts.js:60-62 | a code is valid exactly when it is present, non-empty and its upper-cased form is listed |
| Discounts.InvalidCodeGivesNothing | javascript/test_failure/src/discounts.js:22-27 | a non-empty code that fails validation gives no discount |
| Discounts.UpperOfLower | javascript/test_failure/src/discounts.js:23 | upper-casing after lower-casing gives the same as upper-casing alone |
| Discounts.DiscountIgnoresCase | javascript/test_failure/src/discounts.js:23 | codes that agree when upper-cased give the same discount |
| Discounts.PercentageExample | javascript/test_failure/tests/cart.test.js:68-79 | SAVE10 on 89.99 gives 9.00 and SAVE20 on 100.00 gives 20.00 |
| Discounts.FixedCouponExceedsSubtotal | javascript/test_failure/src/discounts.js:37-40 | FLAT10 on a 5.99 subtotal gives 10.00, more than the subtotal |
| Discounts.TableBounds | javascript/test_failure/src/discounts.js:7-13 | every percentage in the table is between 0 and 100 and every fixed value is non-negative |
| Discounts.CappedWithinSubtotal | javascript/test_failure/tests/cart.test.js:87-91 | the corrected discount, capped at the subtotal, lies between 0 and the subtotal and equals the uncapped one whenever that fits |
| Discounts.Qualifying | javascript/test_failure/src/discounts.js:48-49 | exactly the tiers whose minimum the quantity passes |
| Discounts.BestTierIsHighest | javascript/test_failure/src/discounts.js:48-54 | no tier is chosen exactly when none qualifies; otherwise the chosen tier qualifies and has the largest percentage |
| Discounts.BulkPercentTable | javascript/test_failure/src/discounts.js:16-20 | the chosen percentage is 15, 10 or 5 according to the highest minimum passed |
| Discounts.BulkDiscount | javascript/test_failure/src/discounts.js:45-58 | up to 10 items nothing; more than 50 items 15 %, more than 25 items 10 %, otherwise 5 %, rounded to the cent |
| Discounts.BulkSkipsTenItems | javascript/test_failure/src/discounts.js:49 | exactly 10 items worth 59.90 get no bulk discount |
| Discounts.InclusiveBulkDiscount | javascript/test_failure/tests/cart.test.js:93-108 | the corrected bulk discount counts a quantity equal to a minimum as reaching it |
| Discounts.InclusiveBulkExamples | javascript/test_failure/tests/cart.test.js:93-108 | the corrected bulk discount is 3.00 for 10 items worth 59.90 and 14.98 for 25 items worth 149.75 |
| Discounts.BulkReadingsAgreeOffMinimum | javascript/test_failure/src/discounts.js:49 | the strict and the inclusive bulk discounts differ only at 10, 25 and 50 items |
| Shipping.RateOf | javascript/test_failure/src/shipping.js:6-10 | exactly standard, express and overnight have a rate, and every rate is positive |
| Shipping.CalculateShipping | javascript/test_failure/src/shipping.js:14-27 | below the threshold 0; otherwise the method's rate, or the error naming an unknown method |
| Shipping.Dollars | javascript/test_failure/src/shipping.js:69 | the amount with two decimals after a point |
| Shipping.GetShippingOptions | javascript/test_failure/src/shipping.js:29-44 | one option per method in table order; only standard is free, and only from the threshold on; every option carries its estimated days and the `formatShippingLabel` caption of its rate, and every priced option the method's rate |
| Shipping.DollarsExamples | javascript/test_failure/src/shipping.js:69 | 5.99 and 12.99 are printed as such |
| Shipping.ShippingLabelExamples | javascript/test_failure/src/shipping.js:56-70 | standard is labelled FREE at 50.00 and priced at 49.99; express keeps its price |
| Shipping.ShippingInverted | javascript/test_failure/src/shipping.js:14-18 | calculateShipping charges nothing at 25.00 and charges 5.99 at 50.00, the reverse of the options, and 50.00 does not qualify for free shipping |
| Shipping.CorrectedShippingMatchesOptions | javascript/test_failure/src/shipping.js:72-75 | the corrected charge equals the option's rate for every method, and free shipping starts at exactly 50.00 |
| ShoppingCart.Find | javascript/test_failure/src/cart.js:16 | the position of the first item with that product id, or none when absent |
| ShoppingCart.QuantityConcat | javascript/test_failure/src/cart.js:72 | the quantity of a product in two item lists is the sum of its quantities in each |
| ShoppingCart.QuantityAbsent | javascript/test_failure/src/cart.js:72 | a product not in the list has quantity 0 |
| ShoppingCart.QuantityReplace | javascript/test_failure/src/cart.js:19 | replacing one item changes the product's quantity by the difference between the two items |
| ShoppingCart.QuantityRemove | javascript/test_failure/src/cart.js:49 | removing one item lowers the product's quantity by that item's share |
| ShoppingCart.QuantityOfFound | javascript/test_failure/src/cart.js:15-22 | with one item per product, a product's quantity is the found item's quantity, or 0 |
| ShoppingCart.WholeDollars | javascript/test_failure/src/pricing.js:10 | parseInt of the price keeps the whole dollars: at most the price and less than a dollar below it |
| ShoppingCart.SubtotalTruncation | javascript/test_failure/src/pricing.js:5-15 | the subtotal as written lies between 0 and the exact subtotal, and at most 99 cents per unit below it |
| ShoppingCart.LineTruncation | javascript/test_failure/src/pricing.js:10 | one line's truncated total is at most the exact one and at most 99 cents per unit below it |
| ShoppingCart.SubtotalDropsCents | javascript/test_failure/src/pricing.js:10 | two shirts at 25.00 and jeans at 45.50 sum to 95.00 instead of 95.50, and three socks at 5.99 to 15.00 instead of 17.97 |
| ShoppingCart.Discount | javascript/test_failure/src/cart.js:62-79 | without a code and with at most 10 items the discount is 0 |
| ShoppingCart.StackedDiscountExample | javascript/test_failure/src/cart.js:75-76 | eleven shirts with SAVE10 get the coupon and the bulk discount added together |
| ShoppingCart.BestDiscount | javascript/test_failure/tests/cart.test.js:110-116 | the corrected discount is the larger of the capped coupon and the inclusive bulk discount |
| ShoppingCart.NonNegativeTotals | javascript/test_failure/src/pricing.js:5-15 | non-negative prices and quantities give a non-negative exact subtotal and quantity |
| ShoppingCart.BestDiscountWithinSubtotal | javascript/test_failure/tests/cart.test.js:87-116 | the corrected discount lies between 0 and the exact subtotal |
| ShoppingCart.RoundCents | javascript/test_failure/src/pricing.js:17-20 | rounding to the cent is within half a cent |
| ShoppingCart.TaxOn | javascript/test_failure/src/cart.js:81-86 | tax on a non-negative amount at a non-negative rate is non-negative |
| ShoppingCart.ShippingCharge | javascript/test_failure/src/cart.js:88-92 | the shipping charge is calculateShipping of the undiscounted subtotal with the standard method |
| ShoppingCart.EmptyCartTotal | javascript/test_failure/src/cart.js:94-104 | an empty cart without a code costs 0 |
| ShoppingCart.TotalCanBeNegative | javascript/test_failure/src/cart.js:94-104 | a 5.00 item with FLAT10 totals -5.00 at zero tax |
| ShoppingCart.CorrectedTotalNonNegative | javascript/test_failure/tests/cart.test.js:160-200 | the corrected total is at least the discounted subtotal, which is non-negative |
| ShoppingCart.CorrectedTotalExamples | javascript/test_failure/tests/cart.test.js:168-178 | a 100.00 item with SAVE10 at 10 % tax totals 99.00 when corrected and 105.99 as written |
| ShoppingCart.CorrectedTotalSmallCarts | javascript/test_failure/tests/cart.test.js:180-199 | the corrected totals of the test carts are 33.49 and 44.49 |
| ShoppingCart.Cart.constructor | javascript/test_failure/src/cart.js:9-13 | a new cart is empty, has no code and an 8 % tax rate |
| ShoppingCart.Cart.AddItem | javascript/test_failure/src/cart.js:15-25 | a present product's quantity grows by the amount, otherwise a new item is appended; every product's quantity changes only by the added amount |
| ShoppingCart.Cart.RemoveItem | javascript/test_failure/src/cart.js:42-51 | an absent product is an error and nothing changes; otherwise its item is removed at its position |
| ShoppingCart.Cart.UpdateQuantity | javascript/test_failure/src/cart.js:27-40 | an absent product is an error; a quantity of 0 or less removes the item, any other sets it |
| ShoppingCart.Cart.ApplyDiscountCode | javascript/test_failure/src/cart.js:53-56 | the code is stored and nothing else changes |
| ShoppingCart.Cart.Clear | javascript/test_failure/src/cart.js:122-127 | the items and the code are cleared, and the total becomes 0 |
| Events.IdSetCarries | typescript/async_failures/src/services/queue.ts:24 | an id is in the id set of a list exactly when some event of the list carries it |
| Events.FindById | typescript/async_failures/src/services/queue.ts:102 | find returns an event of the list with that id, and fails exactly when none carries it |
| Events.Stamped | typescript/async_failures/src/services/queue.ts:34-38 | the full event keeps the caller's type and priority and gets the fresh id and the current time |
| Events.FirstUntyped | typescript/async_failures/src/services/queue.ts:135-142 | the position of the first event without a type, or none when every event has one |
| Events.FirstUntypedAt | typescript/async_failures/src/services/queue.ts:135-142 | an untyped event with only typed events before it is the first untyped one |
| Events.IdSetAppend | typescript/async_failures/src/services/queue.ts:75 | appending an event adds exactly its id |
| Events.Admitted | typescript/async_failures/src/services/queue.ts:85-90 | the events taken before the first untyped one are all typed, and the next one, if any, is untyped |
| Events.Consumed | typescript/async_failures/src/services/queue.ts:70-73 | the events shifted off: all taken ones, or those admitted plus the untyped one that raised |
| Events.BatchSize | typescript/async_failures/src/services/queue.ts:85 | the loop runs min(count, pending) times, and none for a negative count |
| Events.InsertSplit | typescript/async_failures/src/services/queue.ts:40-43 | appending and re-sorting places the new event at one position, with the old events in their order around it |
| Events.InsertKeepsDistinct | typescript/async_failures/src/services/queue.ts:40-43 | with a fresh id the pending ids stay distinct and gain exactly the new id |
| Events.SortAppended | typescript/async_failures/src/services/queue.ts:40-43 | on a sorted queue, the stable sort of the appended list equals inserting after every event of at least its priority; the result is sorted, a permutation, and keeps arrival order within each priority |
| Events.EventQueue.constructor | typescript/async_failures/src/services/queue.ts:23-26 | a new queue has nothing pending, processing, completed or failed |
| Events.EventQueue.Enqueue | typescript/async_failures/src/services/queue.ts:33-46 | the stamped event is added and the pending list re-sorted by priority, highest first and stable; the other collections are unchanged |
| Events.EventQueue.EnqueueBatch | typescript/async_failures/src/services/queue.ts:51-60 | each input is stamped with its own id and time, and the pending list equals the sort of all of them appended at once |
| Events.EventQueue.Dequeue | typescript/async_failures/src/services/queue.ts:65-77 | null on an empty queue; otherwise the head leaves pending, an untyped head raises and is lost, and a typed head joins processing and is returned |
| Events.EventQueue.DequeueBatch | typescript/async_failures/src/services/queue.ts:82-93 | up to count events in order leave pending and join processing; the first untyped one raises and ends the batch |
| Events.EventQueue.MarkCompleted | typescript/async_failures/src/services/queue.ts:98-106 | the id leaves processing, and only an event still pending is copied to completed, so a dequeued event never is |
| Events.EventQueue.MarkFailed | typescript/async_failures/src/services/queue.ts:111-114 | the id leaves processing and its error is recorded, replacing an earlier one |
| Events.EventQueue.RetryFailed | typescript/async_failures/src/services/queue.ts:119-130 | every failed id is dropped and counted; nothing returns to pending |
| Events.EventQueue.Stats | typescript/async_failures/src/services/queue.ts:156-163 | the sizes of the four collections |
| Events.EventQueue.Clear | typescript/async_failures/src/services/queue.ts:168-173 | all four collections are emptied and the statistics become zero |
| ConfigMerge.Spread | javascript/config_failure/src/config/loader.js:41 | spreading an object copies its fields; an array, or a string by code point, spreads into index-keyed entries; other values spread into nothing |
| ConfigMerge.Lookup | javascript/config_failure/src/config/loader.js:45 | a key is found exactly when some field has it |
| ConfigMerge.Assign | javascript/config_failure/src/config/loader.js:45-47 | after the assignment the key holds the value, every other key keeps its value, and the keys gain just that one |
| ConfigMerge.KeyIndex | javascript/config_failure/src/config/loader.js:43 | a present key is held by some field |
| ConfigMerge.SpreadSmaller | javascript/config_failure/src/config/loader.js:45 | a nested object reached by the recursion is smaller than the value it came from, so the recursion ends |
| ConfigMerge.BaseOf | javascript/config_failure/src/config/loader.js:45 | the existing value when truthy, otherwise an empty object |
| ConfigMerge.MergeSpec | javascript/config_failure/src/config/loader.js:40-52 | a null override raises; otherwise the result is an object |
| ConfigMerge.MergeFieldsKeys | javascript/config_failure/src/config/loader.js:43-49 | the result's keys are the base's keys plus the override's |
| ConfigMerge.MergeFieldsLookup | javascript/config_failure/src/config/loader.js:43-49 | a key the override lacks keeps the base value; a key it has gets the merged value |
| ConfigMerge.MergeProperties | javascript/config_failure/src/config/loader.js:40-52 | for an object override: keys are the union, keys only in the base keep their value, a non-object override value replaces, and an object override value is merged into the base's value recursively |
| ConfigMerge.NestedMergeExample | javascript/config_failure/src/config/loader.js:44-45 | overriding only the port of a nested database object keeps its host |
| ConfigMerge.ArrayReplacedExample | javascript/config_failure/src/config/loader.js:44-47 | an array override replaces the base array rather than merging into it |
| ConfigMerge.MergeConfig | javascript/config_failure/src/config/loader.js:40-52 | the recursive loop computes exactly the merge specification |
| TaskApi.OrElse | javascript/frontend_backend_mismatch/server/models/task.js:8-10 | `value \|\| fallback` on strings: a non-empty value is kept, a missing or empty one gives the fallback |
| TaskApi.OrNull | javascript/frontend_backend_mismatch/server/models/task.js:11 | `value \|\| null`: present exactly when the value is a non-empty string |
| TaskApi.Created | javascript/frontend_backend_mismatch/server/models/task.js:4-16 | the record takes each given field, with the id defaulting to task_ plus the millisecond clock, status pending, priority medium, empty description and tags, null due date and assignee, and the current time stamps |
| TaskApi.CreatedDefaults | javascript/frontend_backend_mismatch/server/models/task.js:4-16 | a task given only a user and title gets all the defaults |
| TaskApi.Updated | javascript/frontend_backend_mismatch/server/models/task.js:43-52 | every field the patch defines is replaced, the others kept; the id, owner and creation time never change, and the update time becomes now |
| TaskApi.UpdateProperties | javascript/frontend_backend_mismatch/server/models/task.js:43-52 | an empty patch only refreshes the update time, and applying the same patch twice equals applying it once |
| TaskApi.IsValidStatus | javascript/frontend_backend_mismatch/server/models/task.js:39-41 | valid exactly for the four listed statuses |
| TaskApi.DefaultsAreValid | javascript/frontend_backend_mismatch/server/models/task.js:9-10 | the default status and priority are among the listed ones |
| TaskApi.Task.ToJson | javascript/frontend_backend_mismatch/server/models/task.js:18-32 | the plain record of the task's fields |
| TaskApi.Task.constructor | javascript/frontend_backend_mismatch/server/models/task.js:4-16 | the new task's record is the created record |
| TaskApi.Task.Update | javascript/frontend_backend_mismatch/server/models/task.js:43-52 | the task's record becomes the updated record |
| TaskApi.CharUnits | javascript/frontend_backend_mismatch/server/models/task.js:89-90 | a character below U+10000 is one code unit equal to itself; any other is a high and a low surrogate that decode back to it |
| TaskApi.Utf16Injective | javascript/frontend_backend_mismatch/server/models/task.js:89-90 | two strings with the same UTF-16 code units are the same string |
| TaskApi.LessTotal | javascript/frontend_backend_mismatch/server/models/task.js:89-90 | two strings differ exactly when one of them sorts before the other under `<` |
| TaskApi.LessTransitive | javascript/frontend_backend_mismatch/server/models/task.js:89-90 | `<` on strings is transitive |
| TaskApi.SurrogateOrder | javascript/frontend_backend_mismatch/server/models/task.js:89-90 | `<` compares UTF-16 code units: U+1F600 sorts before U+FF01, and a proper prefix sorts first |
| TaskApi.LessIrreflexive | javascript/frontend_backend_mismatch/server/models/task.js:89-90 | no string sorts before itself |
| TaskApi.LessAsymmetric | javascript/frontend_backend_mismatch/server/models/task.js:89-90 | two strings never sort before each other |
| TaskApi.InsertRecord | javascript/frontend_backend_mismatch/server/models/task.js:88-92 | inserting adds the record and keeps all others |
| TaskApi.SortRecords | javascript/frontend_backend_mismatch/server/models/task.js:85-93 | the sort is a permutation of the tasks |
| TaskApi.SortRecordsStable | javascript/frontend_backend_mismatch/server/models/task.js:85-93 | the sort is stable: for every value of the field, the tasks holding it keep their relative order |
| TaskApi.InsertInOrder | javascript/frontend_backend_mismatch/server/models/task.js:88-92 | inserting into an ordered list keeps it ordered |
| TaskApi.SortRecordsInOrder | javascript/frontend_backend_mismatch/server/models/task.js:85-93 | the sorted list is ordered by the field under JavaScript's code-unit `<`, ascending for asc and descending otherwise |
| TaskApi.SortByMissingKeepsOrder | javascript/frontend_backend_mismatch/server/models/task.js:88-92 | sorting by a field no task has leaves the order unchanged |
| TaskApi.NoneBeforeMissing | javascript/frontend_backend_mismatch/server/models/task.js:89-91 | by a field no task has, a record compares equal to all others |
| TaskApi.SliceIndex | javascript/frontend_backend_mismatch/server/models/task.js:99 | a slice bound always lands inside the array and is kept as is when already within it |
| TaskApi.JsSlice | javascript/frontend_backend_mismatch/server/models/task.js:99 | within bounds slice is the plain subsequence, and never longer than the array |
| TaskApi.Matching | javascript/frontend_backend_mismatch/server/models/task.js:70-82 | exactly the user's tasks that pass the status and priority filters |
| TaskApi.Listed | javascript/frontend_backend_mismatch/server/models/task.js:70-93 | the listed tasks are a rearrangement of the matching ones |
| TaskApi.FindByUser | javascript/frontend_backend_mismatch/server/models/task.js:95-106 | the total counts all listed tasks and the page and limit are the defaulted options |
| TaskApi.PageBounds | javascript/frontend_backend_mismatch/server/models/task.js:98 | a page from 1 and a limit from 1 give a non-negative start and a page of exactly limit items |
| TaskApi.FindByUserMembers | javascript/frontend_backend_mismatch/server/models/task.js:69-106 | every returned task belongs to the store, to the user and passes the filters |
| TaskApi.FindByUserTotal | javascript/frontend_backend_mismatch/server/models/task.js:103 | the total is the number of matching tasks and does not depend on the page |
| TaskApi.FindByUserPage | javascript/frontend_backend_mismatch/server/models/task.js:96-99 | a full page is the listed tasks from (page-1)*limit to page*limit; a last partial page runs to the end |
| TaskApi.UnsortedFirstPage | javascript/frontend_backend_mismatch/server/models/task.js:96-99 | without sorting, the first page is the first limit matching tasks in store order |
| TaskApi.SampleFor | javascript/frontend_backend_mismatch/server/models/task.js:129-131 | each seeded task carries the user and no id of its own |
| TaskApi.Removed | javascript/frontend_backend_mismatch/server/models/task.js:117 | removing a key keeps every other key |
| TaskApi.RemovedKeepsDistinct | javascript/frontend_backend_mismatch/server/models/task.js:117 | removing a key keeps the keys distinct |
| TaskApi.TaskStore.constructor | javascript/frontend_backend_mismatch/server/models/task.js:56 | a new store has no tasks |
| TaskApi.TaskStore.Records | javascript/frontend_backend_mismatch/server/models/task.js:56 | the records are keyed by exactly the stored ids |
| TaskApi.TaskStore.Values | javascript/frontend_backend_mismatch/server/models/task.js:70 | the stored records in insertion order |
| TaskApi.TaskStore.Create | javascript/frontend_backend_mismatch/server/models/task.js:59-63 | the new task holds the created record and is stored under its id, replacing an existing task with that id in its place or appending a new id |
| TaskApi.TaskStore.FindById | javascript/frontend_backend_mismatch/server/models/task.js:65-67 | the task stored under the id, or null |
| TaskApi.TaskStore.FindByUserId | javascript/frontend_backend_mismatch/server/models/task.js:69-107 | every returned task is a stored record of the user passing the filters, and the total counts every matching task |
| TaskApi.TaskStore.Update | javascript/frontend_backend_mismatch/server/models/task.js:109-114 | null for an unknown id; otherwise only that task's record becomes the updated record |
| TaskApi.TaskStore.Delete | javascript/frontend_backend_mismatch/server/models/task.js:116-118 | true exactly when the id was stored; the id is gone from the tasks and from the key order, and every other task and key keeps its place |
| TaskApi.TaskStore.Seed | javascript/frontend_backend_mismatch/server/models/task.js:121-132 | the store gains exactly the generated ids of the four samples; each holds the record created from its sample for the user at its clock reading, a later sample replacing an earlier one with the same id; every other task is unchanged; new ids are appended to the key order |
| TaskApi.SeededRecords | javascript/frontend_backend_mismatch/server/models/task.js:129-131 | the records seeding leaves are keyed by exactly the generated ids, each record carrying its id and the user |
| TaskApi.SeededOrder | javascript/frontend_backend_mismatch/server/models/task.js:129-131 | the key order after seeding holds the old keys, in their places at its head, and the generated ids, each once |
| TaskApi.IdsOfIsSet | javascript/frontend_backend_mismatch/server/models/task.js:129-131 | the ids the seeding loop generates are exactly those of its clock readings |
| TaskApi.SeedWithinOneMillisecond | javascript/frontend_backend_mismatch/server/models/task.js:5 | four samples created within the same millisecond get one id, so only one seeded task remains |
| FileParser.ObjectId | javascript/static_structural/src/models/record.js:11 | `data.id \|\| null`: the id is kept exactly when present and truthy |
| FileParser.NewRecord | javascript/static_structural/src/models/record.js:9-14 | null data raises the TypeError of reading id of null; any other value is stored, with the id of an object and null for the rest |
| FileParser.RecordsOf | javascript/static_structural/src/utils/parser.js:25 | mapping the constructor over an array fails exactly when an element is null, otherwise one record per element in order |
| FileParser.ParseJson | javascript/static_structural/src/utils/parser.js:22-33 | a JSON.parse error becomes a failure with its message; an array gives one record per element, any other value one record, and null anywhere a constructor sees it raises |
| FileParser.Lines | javascript/static_structural/src/utils/parser.js:36 | splitting always yields at least one line |
| FileParser.Cells | javascript/static_structural/src/utils/parser.js:41 | one cell per comma-separated piece, each trimmed |
| FileParser.CsvRows | javascript/static_structural/src/utils/parser.js:44-51 | one record per data line, each built from the headers and that line |
| FileParser.CsvRowsStep | javascript/static_structural/src/utils/parser.js:44-51 | one loop turn appends the record of the next line |
| FileParser.ParseCsv | javascript/static_structural/src/utils/parser.js:35-58 | the loop computes exactly the CSV specification |
| FileParser.RowObjectKeys | javascript/static_structural/src/utils/parser.js:46-49 | the row object's keys are exactly the headers |
| FileParser.RowObjectValue | javascript/static_structural/src/utils/parser.js:47-49 | the last column with a header holds that line's cell at the column, or '' when the line is short or the cell empty |
| FileParser.CsvOutcome | javascript/static_structural/src/utils/parser.js:36-57 | fewer than two lines fail with the header-and-row message; otherwise the record count is the number of data lines and matches the records |
| FileParser.CsvRecordShape | javascript/static_structural/src/utils/parser.js:41-50 | every record's data is an object keyed by the headers whose values are the line's cells |
| FileParser.CellsAreTrimmed | javascript/static_structural/src/utils/parser.js:41-45 | no cell contains a comma or starts or ends with whitespace |
| FileParser.TrimIsInfix | javascript/static_structural/src/utils/parser.js:36 | the trimmed content is a contiguous part of the content |
| FileParser.TrimStartIsSuffix | javascript/static_structural/src/utils/parser.js:36 | trimming the start leaves a suffix |
| FileParser.TrimEndIsPrefix | javascript/static_structural/src/utils/parser.js:36 | trimming the end leaves a prefix |
| FileParser.Parse | javascript/static_structural/src/utils/parser.js:7-20 | .json and .csv go to their parsers, any other extension fails with Unsupported format; a success counts its records and a failure carries one message |

## Left out

- Task model: `ExecutionResult.succeeded` is the predicate `TaskModels.Succeeded` itself (the status is SUCCESS), so it has no contract of its own.
- Task executor: the subprocess, its timeout timer and the output capture are not modelled. Each attempt's outcome is the oracle parameter `run`, and whether the working directory exists is the parameter `dirExists`.
- Engine: reading the configuration file (`load_config`) and the wall clock are not modelled. The engine receives the task mapping, one outcome oracle per task and the measured times.
- Reporter: the console formatting of `print_summary` is not modelled; only the numbers it prints are.
- Statistics: the standard deviation and the variance are not modelled.
- Expression: Python's rendering of a non-whole float is the parameter `fmt`, and floats are exact reals (no rounding, no overflow, no infinities).
- Repository: the `created_at` timestamps of books and authors are not modelled.
- Pipeline queue: the lock and the threads that share the queue are not modelled; each call is one atomic step.
- Leaderboard: the clock is the parameter `now`, in seconds. `Instant.now()` inside `addScore` and `recordGame` is the same parameter.
- Leaderboard.LeaderboardService.AddPlayer: it hands out a copy of the player's state, not a reference into the board. The mutations the tests make through that reference are the service methods `RecordGame`, `SetGamesPlayed` and `SetWins`. `setScore`, `setRank`, `setTier`, `setId` and `addScore` called through such a reference are not modelled.
- Leaderboard.LeaderboardService.GetPlayer: it hands out a copy, as `Leaderboard.LeaderboardService.AddPlayer` does.
- Leaderboard: ranks are 0-based as written. The 1-based ranks that the test class expects are not modelled as a correction, and neither is its expectation for the top player's percentile.
- Leaderboard: `PlayerTier.valueOf` is case-sensitive as written. The test's case-insensitive lookup has no corrected member.
- Leaderboard: a `HashMap`'s iteration order is taken to be the insertion order of the ids.
- Meeting scheduler: `rescheduleMeeting`, `calculateStats`, `getUserAvailability` and `findMeetingById` are not modelled. A `Meeting` is kept by value, so aliasing between users' meeting lists is not modelled.
- Task queue job: the default constructor's null name and queue are the empty string. The JSON payload, the timestamps and the JSON annotations are not modelled.
- Entity system: leaks, double deletes and dangling pointers are not modelled, and undefined behaviour is a precondition instead. This covers the destructors, `clone`, `shallowClone` and `deepClone`, and the Sprite and Script component data.
- Entity system: `MyString` and the singleton `getInstance` are not modelled. The two clearing variants (`clearWrong`, `clearAlsoWrong`) are one `Clear`.
- Shopping cart: `getSummary`, `calculateItemPrice` and the string formatting of `getDiscountDescription` are not modelled. `roundCurrency` is rounding half up to the cent.
- Events.EventQueue.DequeueBatch: the count is an integer. JavaScript's `count: number` may be fractional, and the loop `i < count` then runs the next whole number of turns (2.5 dequeues up to 3 events); a fractional count is not modelled.
- Event queue: the payload, `waitUntilEmpty`, `isProcessing` and the console logging are not modelled. A priority is an integer. The delay inside `validateEvent` and every `await` are sequential execution.
- ConfigMerge.MergeSpec: a `__proto__` key in the override is an ordinary key here. In JavaScript, assigning it runs the prototype setter, so the result gets no such own key, and `ConfigMerge.MergeProperties`' union of keys does not hold for it. A string base or override value is spread by code point, as `ConfigMerge.Spread` says, so a string holding a character above U+FFFF gives fewer fields than in JavaScript.
- ConfigMerge.MergeConfig: the same `__proto__` key as for `ConfigMerge.MergeSpec`, and the same spreading of a string by code point as `ConfigMerge.Spread`.
- ConfigMerge.Spread: a string spreads into one entry per code point. JavaScript's `{ ...s }` and `Object.entries(s)` give one entry per UTF-16 code unit, so `"😀"` gives one field here and two (`"0"` and `"1"`, each a lone surrogate) in JavaScript. A lone surrogate is not a character of a Dafny string, so the code-unit form is not modelled.
- Configuration merge: `loadConfig` and `applyEnvOverrides` are not modelled. JavaScript's ordering of integer-like property names, and `NaN`, are not modelled.
- Task store: an undefined title or user id is modelled as a string. Sorting on `due_date`, `tags` or `assignee` is not modelled, and neither is the string coercion of `page` and `limit`. `Date.now()` and `toISOString()` are parameters.
- TaskApi.TaskStore.Create: its frame is stated through the `tasks` map and `modifies this`, not as an equation on all records.
- TaskApi.TaskStore.Delete: the records other tasks hold are stated through the `tasks` map equation, not separately for each record's fields.
- Task store: ids taken from `Date.now()` collide within one millisecond (`TaskApi.SeedWithinOneMillisecond`). No collision-free id generator is modelled as a correction, since the fix depends on a random source.
- File parser: the `createdAt` time, the error list, and `validate`, `get` and `set` of `Record` are not modelled. What `JSON.parse` returns is a parameter.
- File parser: a `__proto__` header and integer-like keys are not modelled.
- File parser: the circular `require` between `record.js` and `parser.js` is not modelled, because the model's modules resolve statically.
- Expression.TokensSpec: a digit is an ASCII digit `0`-`9`. Python's `str.isdigit` also accepts other Unicode digits, such as `٣` or `²`. For those the model reports an invalid character, where Python takes them into a number (and `float` then reads `٣` as 3 and rejects `²`).
- Expression.Tokenize: the same ASCII digits as `Expression.TokensSpec`.
- Repository.BookRepository.Search: lower-casing maps only `A`-`Z`. Python's `str.lower` also maps other letters, such as `É` or `Σ`, so a query that differs from a title only in those letters matches in Python but not here.
- Repository.AuthorRepository.GetByName: the same ASCII lower-casing as `Repository.BookRepository.Search`, on author names.
- Discounts.ApplyDiscount: upper-casing maps only `a`-`z`. JavaScript's `toUpperCase` also maps other letters, some onto ASCII: `ſ` becomes `S` and `ı` becomes `I`. So `ſave10` is the code SAVE10 in JavaScript but unknown here.
- Discounts.ValidateDiscountCode: the same ASCII upper-casing as `Discounts.ApplyDiscount`, so `ſave10` is valid in JavaScript and invalid here.
- Shipping.CalculateShipping: the method name looks up only the three own rates. In JavaScript, a name inherited from `Object.prototype` (`constructor`, `toString`, `__proto__`) finds a truthy value, which is returned instead of the unknown-method error.
- ShoppingCart.Cart.AddItem: the default `quantity = 1` is not modelled; callers pass the quantity.
- Shopping cart: the tests disagree about shipping on a discounted total. `cart.test.js:151-157` charges $5.99 at $45 after a discount, while `cart.test.js:214` expects free shipping at $45. The corrected total follows the first.

## Findings

| source | as written | input that shows it | evidently intended | confidence | as-written member | corrected member |
|---|---|---|---|---|---|---|
| python/test_failure/expression.py:64-81 | operators are applied strictly left to right | `2 + 3 * 4` evaluates to 20 | `*` and `/` bind tighter than `+` and `-` (14) | not executed | Expression.LeftToRightExample | Expression.PrecedenceExample |
| python/test_failure/statistics.py:8-22 | the empty list divides by zero | `[]` raises ZeroDivisionError | raise ValueError, as the docstring says | not executed | Statistics.Mean | Statistics.CheckedMean |
| python/test_failure/statistics.py:45-47 | an even-length median takes the upper middle element | `[1, 2, 3, 4]` gives 3 | the mean of the two middle elements (2.5) | not executed | Statistics.MedianEvenAsWritten | Statistics.TrueMedianEvenExamples |
| java/test_failure/src/main/java/com/leaderboard/service/LeaderboardService.java:44-58 | the tier after a score update uses a strict bound | a new player scoring exactly 1000 stays BRONZE | a band's minimum score belongs to the band (SILVER) | not executed | Tiers.TierAfterUpdateVersusFromScore | Tiers.FromScoreExamples |
| java/test_failure/src/main/java/com/leaderboard/model/Player.java:53-56 | a score may fall below zero | score 100, add -200, gives -100 | the score is floored at 0 | not executed | Players.ScoredGoesNegative | Players.FlooredScoreExample |
| java/test_failure/src/main/java/com/leaderboard/service/LeaderboardService.java:67 | the top-N query returns one player too few | n = 3 of 5 players returns 2 | exactly min(n, size) players | not executed | Leaderboard.TopCountOneShort | Leaderboard.CorrectedTopCount |
| java/test_failure/src/main/java/com/leaderboard/service/LeaderboardService.java:87-90 | the window's start is not clipped at 0 | index 0, range 2 throws | the window is clipped to the list | not executed | Leaderboard.WindowAsWritten | Leaderboard.ClippedWindow |
| java/test_failure/src/main/java/com/leaderboard/service/LeaderboardService.java:102 | integer division before scaling | 2 wins in 3 games gives 0.0 | the percentage 66.67 | not executed | Leaderboard.WinRateTruncates | Leaderboard.TrueWinRateBounds |
| java/test_failure/src/main/java/com/leaderboard/service/LeaderboardService.java:163-180 | merging overwrites the score and takes the larger counters | 1000 and 500 points merge to 500 | scores and counters are summed (1500) | not executed | Leaderboard.MergeExample | Leaderboard.MergedBySum |
| java/logic_error/src/main/java/com/scheduler/model/TimeSlot.java:36-39 | the overlap test compares the wrong ends | 9:00-11:00 and 10:00-12:00 do not overlap | slots overlap when they share a minute | not executed | TimeSlots.OverlapsMissesSharedHour | TimeSlots.IntersectsIffShared |
| java/logic_error/src/main/java/com/scheduler/service/SchedulerService.java:90 | the free-slot cursor moves to the last meeting's end even when it is earlier | 9:00-12:00 with 10:00-10:30 inside offers 10:30 onwards | the cursor moves to the latest end seen | not executed | MeetingScheduler.FreeSlotsNestedMeeting | MeetingScheduler.FreeSlotsAfterBusyAreFree |
| javascript/test_failure/src/cart.js:75-76 | coupon and bulk discounts are added together | 11 shirts at $25 with SAVE10 get $41.25 off | only the larger discount applies | not executed | ShoppingCart.StackedDiscountExample | ShoppingCart.BestDiscount |
| javascript/test_failure/src/discounts.js:37-40 | a fixed coupon is not capped by the subtotal | FLAT10 on $5.99 takes $10 off | the discount is at most the subtotal | not executed | Discounts.FixedCouponExceedsSubtotal | Discounts.CappedWithinSubtotal |
| javascript/test_failure/src/cart.js:94-104 | the total can be negative | one $5 item with FLAT10 at tax rate 0 totals -$5.00 (at the default rate 0.08, -$4.60) | the total is never negative | not executed | ShoppingCart.TotalCanBeNegative | ShoppingCart.CorrectedTotalNonNegative |
| javascript/test_failure/src/discounts.js:49 | the bulk threshold is strict | 10 items get no bulk discount | 10 items or more qualify | not executed | Discounts.BulkSkipsTenItems | Discounts.InclusiveBulkExamples |
| javascript/test_failure/src/shipping.js:14-18 | the free-shipping test is inverted | a $25 order ships free and a $50 order pays $5.99 | orders of $50 or more ship free | not executed | Shipping.ShippingInverted | Shipping.CorrectedShippingMatchesOptions |
| javascript/test_failure/src/pricing.js:10 | `parseInt` drops the cents of each line | three $5.99 items give $15.00 | the exact subtotal $17.97 | not executed | ShoppingCart.SubtotalDropsCents | ShoppingCart.SubtotalTruncation |
| javascript/test_failure/tests/cart.test.js:168-178 | tax and shipping are charged on the undiscounted subtotal | a $100 item with SAVE10 and 10% tax totals $105.99 | tax on the discounted amount, total $99.00 | not executed | ShoppingCart.CorrectedTotalExamples | ShoppingCart.CorrectedTotalNonNegative |
| java/test_failure/src/main/java/com/leaderboard/service/LeaderboardService.java:122-125 | a player is removed from the map while a for-each loop iterates over its values | two players both last active more than 30 days ago: the first is removed and the next iterator step raises ConcurrentModificationException | every inactive player is removed | not executed | Leaderboard.LeaderboardService.RemoveInactivePlayers | Leaderboard.LeaderboardService.RemoveInactiveSafely |
| java/test_failure/src/main/java/com/leaderboard/service/LeaderboardService.java:154-158 | both bounds of the score range are excluded | scores 100, 150 and 200 in the range 100 to 200 find only 150 | both bounds included, finding all three | not executed | Leaderboard.ScoreRangeBounds | Leaderboard.InclusiveRangeExample |
