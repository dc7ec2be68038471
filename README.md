# stc4j core in Dafny

This project models the sequential logic of the stc4j library (`com.serliunx.stc4j`)
and proves properties about it. It covers three parts.

- **`DefaultReusableThreadExecutor`**. This is a single-worker executor. It has an
  integer status (NEW 0, IDLE 1, RUNNING 2, SHUTDOWN 3, TERMINATED 4), a FIFO queue
  with an optional capacity, a `tasksExecuted` counter and a rejection handler.
  - `lifecycle.dfy` (module `Lifecycle`) is the pure state machine. Each public
    operation, and each iteration of the worker loop in `start()`/`getTask()`, is one
    atomic transition. The module also has lemmas over any trace of events.
  - `executor.dfy` (module `Executor`) is the executor as a class. Its fields are
    updated in place, and each method is proved to perform the matching `Lifecycle`
    transition.
  - `rejection.dfy` models the Abort, CallerRuns and Discard handlers, and an injected
    custom handler.
  - `tasks.dfy` models tasks and `CallableAdapter`.
  - `counting_handler.dfy` models `DefaultCountableRejectedExecutionHandler`.
  - `thread_factory.dfy` models `DefaultIndexCountingThreadFactory`. Its index is a
    Java `int` that wraps around.
- **`SortableProperties`**. This is an insertion-ordered string table.
  - `props_format.dfy` (module `PropsFormat`) holds the pure definitions: the table,
    Java's `String.split("=")`, `BufferedReader.readLine`, what `load`, `store` and
    `list` compute, and the store-then-load round trip.
  - `properties.dfy` is the class. `put`, `remove`, `clear` and `load` update it in
    place, and each loop is proved against the pure definition.
- **`Pair.DefaultImpl`** (`pairs.dfy`). This is a mutable left/right record, with
  `of`, `extract`, `map`, `equals` and `toString`.

Threads are abstracted away. One call of `WorkerStep` stands for one atomic step of
the worker thread. An interrupt from `shutdownNow` is a flag on the worker. While the
flag is set, `getTask` yields no task. Two calls can land while a task runs, and each is
a field of the step's `StepInput`:
- `shutdownDuringRun` is a `shutdown()`;
- `stopNowDuringRun` is a `shutdownNow()`, which interrupts the running worker and
  drains the queue.

How a task's `run()` ends is a parameter `RunOutcome` (normal or abrupt). The
executor's `toString()` that Abort puts in its message is also a parameter
(`selfText`).

### Where the code and its own comments disagree (the model follows the code)

- **The status can go back.** The Javadoc of `STATUS_SHUTDOWN` and `STATUS_TERMINATED`
  (`DefaultReusableThreadExecutor.java:72-73` and `:79-80`) says that no new task is
  accepted in those states. That does not hold in the code:
  - line 326 writes RUNNING over SHUTDOWN;
  - lines 335-337 then leave IDLE behind;
  - so a `shutdown()` made while tasks are still queued is undone, and `execute`
    accepts tasks again.
  - `Lifecycle.StatusCanRegress` proves this on a concrete trace.
- **A `shutdownNow()` during a failing task is lost.** `shutdownNow` interrupts the
  running worker and drains the queue, but it does not raise the status. If the task
  then ends abruptly, `start()` makes a fresh worker that was never interrupted. Nothing
  then remembers the `shutdownNow`. The executor is not shut down, never reaches
  TERMINATED, and accepts and runs new tasks. `Lifecycle.InterruptLostOnAbruptRun`
  proves this on a concrete trace.
- **When TERMINATED is set.** It is set in exactly two cases:
  - a task ends normally while the executor is shut down and the queue is empty;
  - a worker's wait fails because it was interrupted. The interrupt must come from a
    `shutdownNow` that arrived between tasks, or during a task that ended normally
    (`Lifecycle.StopNowBetweenStepsTerminates`).
- **`awaitTermination` is a stub.** The code always returns `false` under a `// TODO`
  (lines 157-160), and `AwaitTermination` models exactly that.

## Model

| member | source | states |
|---|---|---|
| Tasks.Call | src/main/java/com/serliunx/stc4j/thread/executor/DefaultReusableThreadExecutor.java:434-449 | the adapter returns its fixed result when the wrapped task completes; when the task throws, that failure propagates and nothing is returned |
| Rejection.AbortMessage | src/main/java/com/serliunx/stc4j/thread/executor/AbortRejectionHandler.java:34-36 | the rejection message is the task's text, then " in ", then the executor's text, each at its exact position |
| Rejection.MergedRejectedExecution | src/main/java/com/serliunx/stc4j/thread/executor/AbortRejectionHandler.java:33-36 | Abort never returns normally: it raises a RejectedExecutionException carrying that message, and it runs no task |
| Rejection.CallerRunsReject | src/main/java/com/serliunx/stc4j/thread/executor/CallerRunsRejectionHandler.java:28-31 | CallerRuns runs exactly the rejected task, once, on the caller; an exception escapes iff the task throws |
| Rejection.DiscardReject | src/main/java/com/serliunx/stc4j/thread/executor/DiscardRejectionHandler.java:28-31 | Discard runs nothing and raises nothing |
| Rejection.Reject | src/main/java/com/serliunx/stc4j/thread/executor/DefaultReusableThreadExecutor.java:278-281 | dispatches to each policy's behaviour (a custom handler receives the task); at most one task is run, and one runs iff the policy is CallerRuns |
| Rejection.AbortInstance | src/main/java/com/serliunx/stc4j/thread/executor/AbortRejectionHandler.java:24-31 | the shared Abort handler reacts to every task exactly as `MergedRejectedExecution`: it raises, with the message |
| Rejection.CallerRunsInstance | src/main/java/com/serliunx/stc4j/thread/executor/CallerRunsRejectionHandler.java:19-26 | the shared CallerRuns handler reacts to every task exactly as `CallerRunsReject`: it runs the task on the caller |
| Rejection.DiscardInstance | src/main/java/com/serliunx/stc4j/thread/executor/DiscardRejectionHandler.java:19-26 | the shared Discard handler reacts to every task exactly as `DiscardReject`: it drops the task |
| Lifecycle.TerminatedIsShutdown | src/main/java/com/serliunx/stc4j/thread/executor/DefaultReusableThreadExecutor.java:146-154 | isTerminated implies isShutdown |
| Lifecycle.Initial | src/main/java/com/serliunx/stc4j/thread/executor/DefaultReusableThreadExecutor.java:84-93 | a new executor has status NEW, is not shut down, holds the given queue, has run nothing, and has a first worker from start() that is not interrupted |
| Lifecycle.InitialWf | src/main/java/com/serliunx/stc4j/thread/executor/DefaultReusableThreadExecutor.java:56-82 | the initial state satisfies the invariant: the status is one of the five constants, the queue is within capacity, and a live worker never sees TERMINATED |
| Lifecycle.Shutdown | src/main/java/com/serliunx/stc4j/thread/executor/DefaultReusableThreadExecutor.java:121-125 | afterwards the executor is shut down; a status of 3 or more is kept, and any lower status becomes exactly 3; queue, counter and worker are untouched |
| Lifecycle.ShutdownIdempotent | src/main/java/com/serliunx/stc4j/thread/executor/DefaultReusableThreadExecutor.java:121-125 | a second shutdown changes nothing |
| Lifecycle.ShutdownNow | src/main/java/com/serliunx/stc4j/thread/executor/DefaultReusableThreadExecutor.java:128-144 | when terminated, it returns an empty list and changes nothing; otherwise it returns the whole queue in FIFO order, leaves the queue empty, interrupts the worker and keeps the status |
| Lifecycle.Execute | src/main/java/com/serliunx/stc4j/thread/executor/DefaultReusableThreadExecutor.java:274-282 | a null command throws NullPointerException and changes nothing; otherwise the task is refused iff the executor is shut down or the bounded queue is full, and then the policy reacts exactly once and the state is unchanged; otherwise the task is appended at the back and nothing else changes |
| Lifecycle.Step | src/main/java/com/serliunx/stc4j/thread/executor/DefaultReusableThreadExecutor.java:314-368 | a new worker sets IDLE; an interrupted worker exits and sets TERMINATED; a taken task is exactly the queue's head; a `shutdownNow` during the run returns exactly the rest of the queue and interrupts the worker; the counter grows by exactly 1 per task run, however it ends; IDLE follows a run unless the executor is then shut down; after a normal run the loop ends iff shut down with an empty queue, and then sets TERMINATED, and otherwise it goes on looping, interrupted iff a `shutdownNow` arrived; after an abrupt run `start()` creates a fresh, uninterrupted worker, or none when shut down, and TERMINATED is never set |
| Lifecycle.LiveWorkerNeverDropsTask | src/main/java/com/serliunx/stc4j/thread/executor/DefaultReusableThreadExecutor.java:323-324 | in every well-formed state the loop's `!isTerminated()` test never discards a taken task |
| Lifecycle.StatusCanRegress | src/main/java/com/serliunx/stc4j/thread/executor/DefaultReusableThreadExecutor.java:326-337 | a shutdown followed by one worker step on a queued task leaves the executor no longer shut down, with the worker still looping, and a later execute is accepted |
| Lifecycle.InterruptLostOnAbruptRun | src/main/java/com/serliunx/stc4j/thread/executor/DefaultReusableThreadExecutor.java:128-368 | a `shutdownNow` that arrives while a task runs and then fails drains the queue, but leaves a fresh worker that is not interrupted and an executor that is not shut down; a later task is accepted and run, and the executor stays IDLE rather than TERMINATED |
| Lifecycle.StopNowBetweenStepsTerminates | src/main/java/com/serliunx/stc4j/thread/executor/DefaultReusableThreadExecutor.java:128-366 | a `shutdownNow` between tasks makes the worker's next step end the loop, set TERMINATED and leave no worker |
| Lifecycle.ApplyKeepsFifo | src/main/java/com/serliunx/stc4j/thread/executor/DefaultReusableThreadExecutor.java:323-339 | for any single event, the old queue followed by the admitted tasks equals the removed tasks followed by the new queue, and the counter grows by the number of tasks run |
| Lifecycle.ApplyKeepsWf | src/main/java/com/serliunx/stc4j/thread/executor/DefaultReusableThreadExecutor.java:314-357 | every event preserves the invariant |
| Lifecycle.RunKeepsFifo | src/main/java/com/serliunx/stc4j/thread/executor/DefaultReusableThreadExecutor.java:274-357 | over any trace, tasks leave the queue in exactly the order they were queued, and tasksExecuted counts exactly the tasks run |
| Lifecycle.RunKeepsWf | src/main/java/com/serliunx/stc4j/thread/executor/DefaultReusableThreadExecutor.java:274-357 | over any trace from a well-formed state, the invariant holds |
| Lifecycle.DiscardWhenShutdownIsNoOp | src/main/java/com/serliunx/stc4j/thread/executor/DefaultReusableThreadExecutor.java:278-281 | with the Discard policy, any number of submissions to a shut-down executor leaves it exactly as it was and admits nothing |
| Lifecycle.InvokeAllCheck | src/main/java/com/serliunx/stc4j/thread/executor/DefaultReusableThreadExecutor.java:180-183 | invokeAll fails with NullPointerException iff the collection is null |
| Lifecycle.InvokeAnyCheck | src/main/java/com/serliunx/stc4j/thread/executor/DefaultReusableThreadExecutor.java:373-380 | invokeAny fails with NullPointerException iff the collection is null, with IllegalArgumentException iff it is empty, and passes iff it is non-empty |
| Executor.ReusableThreadExecutor.constructor | src/main/java/com/serliunx/stc4j/thread/executor/DefaultReusableThreadExecutor.java:84-93 | the object's state is the initial lifecycle state with the given capacity and handler |
| Executor.ReusableThreadExecutor.WithDefaults | src/main/java/com/serliunx/stc4j/thread/executor/DefaultReusableThreadExecutor.java:95-98 | as the constructor, with the Abort singleton as handler |
| Executor.ReusableThreadExecutor.GetStatus | src/main/java/com/serliunx/stc4j/thread/executor/DefaultReusableThreadExecutor.java:111-113 | the status is always one of the five constants |
| Executor.ReusableThreadExecutor.GetTasksExecuted | src/main/java/com/serliunx/stc4j/thread/executor/DefaultReusableThreadExecutor.java:116-118 | the number of task runs so far, which `Lifecycle.RunKeepsFifo` ties to the tasks taken from the queue |
| Executor.ReusableThreadExecutor.IsShutdown | src/main/java/com/serliunx/stc4j/thread/executor/DefaultReusableThreadExecutor.java:146-149 | true iff the status is at least SHUTDOWN |
| Executor.ReusableThreadExecutor.IsTerminated | src/main/java/com/serliunx/stc4j/thread/executor/DefaultReusableThreadExecutor.java:151-154 | true iff the status is TERMINATED, and then isShutdown holds too |
| Executor.ReusableThreadExecutor.AwaitTermination | src/main/java/com/serliunx/stc4j/thread/executor/DefaultReusableThreadExecutor.java:156-160 | always reports that termination did not happen |
| Executor.ReusableThreadExecutor.Shutdown | src/main/java/com/serliunx/stc4j/thread/executor/DefaultReusableThreadExecutor.java:121-125 | the fields change exactly as `Lifecycle.Shutdown` says, and the invariant is kept |
| Executor.ReusableThreadExecutor.ShutdownNow | src/main/java/com/serliunx/stc4j/thread/executor/DefaultReusableThreadExecutor.java:128-144 | the fields and the returned list are exactly `Lifecycle.ShutdownNow`'s |
| Executor.ReusableThreadExecutor.Execute | src/main/java/com/serliunx/stc4j/thread/executor/DefaultReusableThreadExecutor.java:274-282 | the fields and the outcome are exactly `Lifecycle.Execute`'s |
| Executor.ReusableThreadExecutor.WorkerStep | src/main/java/com/serliunx/stc4j/thread/executor/DefaultReusableThreadExecutor.java:314-368 | the imperative worker step, which writes RUNNING and then IDLE in place and applies a `shutdown` or `shutdownNow` that lands during the run, ends in exactly the state and result of `Lifecycle.Step` |
| CountingHandler.CountableRejectedExecutionHandler.constructor | src/main/java/com/serliunx/stc4j/thread/support/DefaultCountableRejectedExecutionHandler.java:18-23 | the count starts at 0 and there is no last rejected task (null) |
| CountingHandler.CountableRejectedExecutionHandler.GetCount | src/main/java/com/serliunx/stc4j/thread/support/DefaultCountableRejectedExecutionHandler.java:25-28 | the number of rejections so far, which each `RejectedExecution` raises by exactly 1 |
| CountingHandler.CountableRejectedExecutionHandler.GetLastRejectedTask | src/main/java/com/serliunx/stc4j/thread/support/DefaultCountableRejectedExecutionHandler.java:30-33 | the task of the latest rejection, or null before any |
| CountingHandler.CountableRejectedExecutionHandler.RejectedExecution | src/main/java/com/serliunx/stc4j/thread/support/DefaultCountableRejectedExecutionHandler.java:36-39 | the count grows by exactly 1, the last rejected task becomes `r`, and `r` is neither run nor turned into an exception |
| ThreadFactory.Wrap32 | src/main/java/com/serliunx/stc4j/thread/support/DefaultIndexCountingThreadFactory.java:21 | the value is a Java int congruent to the input modulo 2^32, and an int is left unchanged |
| ThreadFactory.Increment | src/main/java/com/serliunx/stc4j/thread/support/DefaultIndexCountingThreadFactory.java:46 | getAndIncrement's new value is the successor, and Integer.MIN_VALUE after Integer.MAX_VALUE |
| ThreadFactory.IncrementWraps | src/main/java/com/serliunx/stc4j/thread/support/DefaultIndexCountingThreadFactory.java:46 | one step: incrementing the wrapped value of start + n gives the wrapped value of start + n + 1. `NewThread` uses it to keep its invariant that the index after n threads is start + n, wrapped |
| ThreadFactory.IndicesDistinct | src/main/java/com/serliunx/stc4j/thread/support/DefaultIndexCountingThreadFactory.java:46 | fewer than 2^32 consecutive threads never get the same index |
| ThreadFactory.NoOverflowIndices | src/main/java/com/serliunx/stc4j/thread/support/DefaultIndexCountingThreadFactory.java:46 | when no overflow happens, the i-th thread gets exactly the start index plus i |
| ThreadFactory.IndexCountingThreadFactory.constructor | src/main/java/com/serliunx/stc4j/thread/support/DefaultIndexCountingThreadFactory.java:29-32 | getPattern returns the given pattern, getNextIndex returns the start index, and no index has been used yet |
| ThreadFactory.IndexCountingThreadFactory.GetPattern | src/main/java/com/serliunx/stc4j/thread/support/DefaultIndexCountingThreadFactory.java:34-37 | the pattern given to the constructor, which every thread name uses |
| ThreadFactory.IndexCountingThreadFactory.GetNextIndex | src/main/java/com/serliunx/stc4j/thread/support/DefaultIndexCountingThreadFactory.java:40-42 | the next index is an int; it equals the start index plus the number of threads made so far, wrapped |
| ThreadFactory.IndexCountingThreadFactory.NewThread | src/main/java/com/serliunx/stc4j/thread/support/DefaultIndexCountingThreadFactory.java:45-47 | the thread runs `r` and is named after the pattern and the index from before the call; the index then advances by one, with wrap-around; the indices used so far are start, start+1, and so on, in order |
| PropsFormat.Put | src/main/java/com/serliunx/stc4j/util/SortableProperties.java:145-148 | the value is replaced or added; a key already present keeps its position, and a new key goes last; the table invariant is kept |
| PropsFormat.Without | src/main/java/com/serliunx/stc4j/util/SortableProperties.java:141-143 | the key order loses exactly the removed key, and is unchanged when the key is absent |
| PropsFormat.WithoutDistinct | src/main/java/com/serliunx/stc4j/util/SortableProperties.java:141-143 | removing a key from a duplicate-free key order leaves it duplicate-free |
| PropsFormat.WithoutKeepsOrder | src/main/java/com/serliunx/stc4j/util/SortableProperties.java:141-143 | removing the one occurrence of `k` from `a + [k] + b` gives exactly `a + b`, so the other keys keep their order |
| PropsFormat.Remove | src/main/java/com/serliunx/stc4j/util/SortableProperties.java:141-143 | the key leaves both the table and the order; the other values are unchanged; removing an absent key changes nothing |
| PropsFormat.RemoveKeepsOrder | src/main/java/com/serliunx/stc4j/util/SortableProperties.java:141-143 | after `remove(k)` the key order is the old order with position i, where k stood, cut out |
| PropsFormat.Get | src/main/java/com/serliunx/stc4j/util/SortableProperties.java:156-158 | a result exists iff the key is present, and it is the stored value |
| PropsFormat.PutThenGet | src/main/java/com/serliunx/stc4j/util/SortableProperties.java:145-158 | after a put, get of that key returns the new value, and get of any other key is unchanged |
| PropsFormat.SizeIsKeyCount | src/main/java/com/serliunx/stc4j/util/SortableProperties.java:32-34 | the number of entries equals the length of the key order |
| PropsFormat.SplitAll | src/main/java/com/serliunx/stc4j/util/SortableProperties.java:205 | there is at least one piece, and no piece contains `=` |
| PropsFormat.SplitThenJoin | src/main/java/com/serliunx/stc4j/util/SortableProperties.java:205 | the pieces, joined with `=`, give back the line |
| PropsFormat.DropTrailingEmpty | src/main/java/com/serliunx/stc4j/util/SortableProperties.java:205 | the result is a prefix of the pieces that does not end with an empty piece, and only empty pieces were dropped |
| PropsFormat.JavaSplit | src/main/java/com/serliunx/stc4j/util/SortableProperties.java:205 | a line without `=` is its own single piece, even when empty; otherwise the pieces between `=` signs, with trailing empty ones dropped |
| PropsFormat.SplitShape | src/main/java/com/serliunx/stc4j/util/SortableProperties.java:205-217 | split leaves nothing of a line with `=` iff the line is only `=` signs; otherwise the line is the first piece, `=`, the other kept pieces joined by `=`, then only the dropped `=` signs, and that joined value does not end with `=` |
| PropsFormat.ParseLine | src/main/java/com/serliunx/stc4j/util/SortableProperties.java:203-217 | a line is skipped iff it is a comment or a non-empty run of `=` signs; a line without `=` is a key with the empty value; otherwise the line is the key, `=`, the value and then only `=` signs, where the key holds no `=` and the value does not end with `=` |
| PropsFormat.JoinSnoc | src/main/java/com/serliunx/stc4j/util/SortableProperties.java:211-214 | appending a piece puts one `=` before it, as the value builder does |
| PropsFormat.SplitAfterKey | src/main/java/com/serliunx/stc4j/util/SortableProperties.java:205 | a key without `=` is the first piece of `key=value`, and the rest are the value's own pieces |
| PropsFormat.LastPieceNonEmpty | src/main/java/com/serliunx/stc4j/util/SortableProperties.java:205 | a non-empty value that does not end with `=` has a non-empty last piece, so split drops nothing from it |
| PropsFormat.StoredLineParses | src/main/java/com/serliunx/stc4j/util/SortableProperties.java:205-217 | a stored line `key=value` of a storable entry parses back to exactly that key and value |
| PropsFormat.LineEnd | src/main/java/com/serliunx/stc4j/util/SortableProperties.java:200-201 | readLine's line ends at the first `\n` or `\r`, or at the end of the text |
| PropsFormat.ReadLines | src/main/java/com/serliunx/stc4j/util/SortableProperties.java:199-201 | the lines readLine returns: none iff the text is empty, none of them holds a line break, and a text without breaks is one line |
| PropsFormat.ReadLineThenRest | src/main/java/com/serliunx/stc4j/util/SortableProperties.java:200-201 | a line without breaks, followed by `\n` or `\r\n`, is read as that line, and reading continues after the separator |
| PropsFormat.ReadRendered | src/main/java/com/serliunx/stc4j/util/SortableProperties.java:236-249 | reading back lines written with newLine() gives exactly those lines |
| PropsFormat.UntilBlank | src/main/java/com/serliunx/stc4j/util/SortableProperties.java:201-202 | load reads a prefix of the lines and never reaches an empty line |
| PropsFormat.UntilBlankStops | src/main/java/com/serliunx/stc4j/util/SortableProperties.java:201-202 | load reads exactly the lines before the first empty line; later lines are never read |
| PropsFormat.CommentIgnored | src/main/java/com/serliunx/stc4j/util/SortableProperties.java:203-204 | a line starting with `#` leaves the table unchanged |
| PropsFormat.ApplyLine | src/main/java/com/serliunx/stc4j/util/SortableProperties.java:203-217 | a skipped line changes nothing; an entry line sets its key to its value; a key already there keeps its place and a new one goes last; the table invariant is kept |
| PropsFormat.ApplyLines | src/main/java/com/serliunx/stc4j/util/SortableProperties.java:198-219 | applying lines in order keeps the table invariant, keeps every old key, keeps the old key order as a prefix |
| PropsFormat.LoadText | src/main/java/com/serliunx/stc4j/util/SortableProperties.java:198-219 | load keeps the table invariant, keeps every old key and its place in the order, and is a no-op on empty text |
| PropsFormat.ApplyLineBySplit | src/main/java/com/serliunx/stc4j/util/SortableProperties.java:203-217 | one line of load is the same as the loop body: split at `=`, then put the first piece with the rest joined by `=`, unless it is a comment or nothing is left |
| PropsFormat.StoreLines | src/main/java/com/serliunx/stc4j/util/SortableProperties.java:238-246 | store writes one `#` header line, then one `key=value` line per entry, in key order |
| PropsFormat.StoreText | src/main/java/com/serliunx/stc4j/util/SortableProperties.java:236-249 | the text opens with `#`, the date and a separator, and ends with a separator; reading and loading it back is `StoreLoadRoundTrip` |
| PropsFormat.ApplyStoredLines | src/main/java/com/serliunx/stc4j/util/SortableProperties.java:198-219 | loading the header and the first n stored lines into an empty table rebuilds the first n entries, in order |
| PropsFormat.StoreLoadRoundTrip | src/main/java/com/serliunx/stc4j/util/SortableProperties.java:198-249 | store, then load into an empty table, reproduces the same entries in the same order. This needs keys without `=`, breaks or a leading `#`, values without breaks or a trailing `=`, no entry with both key and value empty, a date without breaks, and `\n` or `\r\n` as the separator |
| PropsFormat.Shown | src/main/java/com/serliunx/stc4j/util/SortableProperties.java:318-319 | list shows a value of up to 40 characters as it is; a longer value is shown as its first 37 characters plus `...`, which is 40 characters |
| PropsFormat.NonEmptyKeys | src/main/java/com/serliunx/stc4j/util/SortableProperties.java:312-313 | only non-empty keys of the table are listed |
| PropsFormat.ListLine | src/main/java/com/serliunx/stc4j/util/SortableProperties.java:310-321 | no line for the empty key; otherwise one line made of the key, `=` and at most 40 more characters, which are the whole value when it fits |
| PropsFormat.ListEntries | src/main/java/com/serliunx/stc4j/util/SortableProperties.java:308-322 | at most one line per key |
| PropsFormat.ListEntriesShape | src/main/java/com/serliunx/stc4j/util/SortableProperties.java:306-323 | after the header, list prints one line per non-empty key, in key order: the key, `=`, and the abbreviated value |
| PropsFormat.ListLines | src/main/java/com/serliunx/stc4j/util/SortableProperties.java:306-323 | the header `-- listing properties --`, then one line per non-empty key, in key order: the key, `=` and the value as `Shown` abbreviates it |
| Properties.BuildValue | src/main/java/com/serliunx/stc4j/util/SortableProperties.java:209-216 | the value builder's loop produces the pieces after the key, joined by `=` |
| Properties.SortableProperties.constructor | src/main/java/com/serliunx/stc4j/util/SortableProperties.java:29 | a new object holds no entries |
| Properties.SortableProperties.Get | src/main/java/com/serliunx/stc4j/util/SortableProperties.java:156-158 | a result exists iff the key is present, and it is the stored value |
| Properties.SortableProperties.ContainsKey | src/main/java/com/serliunx/stc4j/util/SortableProperties.java:161-163 | true iff the key is in the table, which is iff it is in the key order |
| Properties.SortableProperties.ContainsValue | src/main/java/com/serliunx/stc4j/util/SortableProperties.java:166-173 | true iff some key maps to the value |
| Properties.SortableProperties.Size | src/main/java/com/serliunx/stc4j/util/SortableProperties.java:32-34 | the number of distinct keys |
| Properties.SortableProperties.IsEmpty | src/main/java/com/serliunx/stc4j/util/SortableProperties.java:186-188 | true iff there are no entries, which is iff there are no keys |
| Properties.SortableProperties.Keys | src/main/java/com/serliunx/stc4j/util/SortableProperties.java:180-183 | keys() and propertyNames() list every key exactly once, in first-insertion order |
| Properties.SortableProperties.Elements | src/main/java/com/serliunx/stc4j/util/SortableProperties.java:176-178 | elements() lists the values in key order |
| Properties.SortableProperties.StringPropertyNames | src/main/java/com/serliunx/stc4j/util/SortableProperties.java:293-298 | the set of names is exactly the set of keys |
| Properties.SortableProperties.GetProperty | src/main/java/com/serliunx/stc4j/util/SortableProperties.java:272-277 | null iff the key is absent; otherwise the stored value |
| Properties.SortableProperties.GetPropertyOr | src/main/java/com/serliunx/stc4j/util/SortableProperties.java:280-285 | returns the default when the key is absent, and the stored value otherwise |
| Properties.SortableProperties.Put | src/main/java/com/serliunx/stc4j/util/SortableProperties.java:145-148 | put and setProperty change the object exactly as `PropsFormat.Put` says, and return the previous value, or null |
| Properties.SortableProperties.Remove | src/main/java/com/serliunx/stc4j/util/SortableProperties.java:140-143 | the object changes exactly as `PropsFormat.Remove` says, the other keys keep their order, and the removed value, or null, is returned |
| Properties.SortableProperties.Clear | src/main/java/com/serliunx/stc4j/util/SortableProperties.java:130-133 | afterwards the object holds no entries |
| Properties.SortableProperties.Load | src/main/java/com/serliunx/stc4j/util/SortableProperties.java:198-219 | the imperative loop leaves exactly `LoadText` of the old contents and the text |
| Properties.SortableProperties.LoadLine | src/main/java/com/serliunx/stc4j/util/SortableProperties.java:203-217 | the loop body for one line changes the object exactly as `ApplyLine` says |
| Properties.SortableProperties.Store | src/main/java/com/serliunx/stc4j/util/SortableProperties.java:236-249 | the text the loop writes is exactly `StoreText` of the contents, so the round trip above applies to it |
| Properties.SortableProperties.List | src/main/java/com/serliunx/stc4j/util/SortableProperties.java:305-323 | the lines printed are exactly `ListLines` of the contents: the header, then one line per non-empty key, in key order |
| Properties.SortableProperties.ListOne | src/main/java/com/serliunx/stc4j/util/SortableProperties.java:310-321 | the per-key action prints exactly `ListLine` of that key |
| Pairs.DefaultImpl.constructor | src/main/java/com/serliunx/stc4j/util/Pair.java:93-96 | both components are the given ones |
| Pairs.DefaultImpl.Left | src/main/java/com/serliunx/stc4j/util/Pair.java:100-103 | `l()` returns the current left component, the one the constructor or `setLeft` stored |
| Pairs.DefaultImpl.Right | src/main/java/com/serliunx/stc4j/util/Pair.java:105-108 | `r()` returns the current right component, the one the constructor or `setRight` stored |
| Pairs.DefaultImpl.SetLeft | src/main/java/com/serliunx/stc4j/util/Pair.java:110-113 | `l()` becomes the new value, and `r()` is unchanged |
| Pairs.DefaultImpl.SetRight | src/main/java/com/serliunx/stc4j/util/Pair.java:115-118 | `r()` becomes the new value, and `l()` is unchanged |
| Pairs.DefaultImpl.Map | src/main/java/com/serliunx/stc4j/util/Pair.java:120-125 | a map with exactly one entry, from `l()` to `r()` |
| Pairs.DefaultImpl.Equals | src/main/java/com/serliunx/stc4j/util/Pair.java:127-133 | equal iff the other pair is not null and has the same one-entry map, that is, the same left and right components |
| Pairs.DefaultImpl.ToString | src/main/java/com/serliunx/stc4j/util/Pair.java:140-143 | the rendered left value, one `=`, then the rendered right value, each at its exact position |
| Pairs.Of | src/main/java/com/serliunx/stc4j/util/Pair.java:63-65 | a fresh pair whose `l()` and `r()` are the arguments |
| Pairs.Extract | src/main/java/com/serliunx/stc4j/util/Pair.java:75-80 | one fresh pair per entry of the map, so the length is the map's size; each pair is an entry of the map, every key appears, and no key appears twice |
| Pairs.ExtractOfMap | src/main/java/com/serliunx/stc4j/util/Pair.java:75-80 | extracting a pair's own map gives exactly one pair, equal to it |
| Pairs.ExtractedPairEqualsOf | src/test/java/com/serliunx/stc4j/util/PairTest.java:17-31 | extracting {key1: value1, key2: value2} gives a pair equal to `of("key1", "value1")` |

## Left out

- Threads, `thread.start()`, blocking `queue.take()`, `mainLock`, and the memory
  semantics of `volatile` and `AtomicInteger` are out of scope. The worker is one
  atomic step at a time, and an interrupt is a flag that makes `getTask` yield no task.
- `beforeExecute`, `afterExecute` and the tasks' own effects are out of scope. The hooks
  are empty in this class, and a task is opaque apart from how its run ends.
- `submit` and `FutureTask`, and the waiting and deadlines of `invokeAll` and
  `invokeAny`, are out of scope. They rely on JDK classes and time. Only the argument
  checks are modelled.
- `ReadonlyThread` and `getThread` are out of scope: they only wrap `java.lang.Thread`.
- The executor's `toString()` is out of scope. The text the Abort message needs is a
  parameter.
- The thread factory that the executor uses to make its worker is not called by the
  executor model. The factory is modelled on its own.
- Rejection.Reject: an injected custom handler is only recorded as having received the
  task. Its own behaviour is unknown code.
- `MergedRejectedExecutionHandler` and `IteratorToEnumerationAdapter` are left out. They
  only bridge signatures, and enumerations are modelled as sequences. The interface-only
  files declare no behaviour.
- Executor.ReusableThreadExecutor.GetTasksExecuted: the counter is an unbounded natural.
  Java's `long` overflow after 2^63 tasks is not modelled.
- CountingHandler.CountableRejectedExecutionHandler.RejectedExecution: the `AtomicLong`
  counter is unbounded here. Its overflow is not modelled.
- `SortableProperties` reads and writes text, not a `Reader` or `Writer`, and the
  charset handling is left out.
  - The header's `new Date()` is a parameter of `Store`.
  - The line separator of `newLine()` is a parameter of `Store`, either `\n` or `\r\n`.
  - `save` (which swallows IOException), the XML methods and `rehash` (which throw) are
    left out.
- The LinkedHashMap delegates of `SortableProperties` are left out: `merge`,
  `compute*`, `replace*`, `putIfAbsent`, `remove(key, value)`, `forEach`, `putAll`,
  `getOrDefault`, `values`, `entrySet`, `keySet`, `toString`, `clone`, `equals` and
  `hashCode`.
- Keys and values of `SortableProperties` are strings, so null keys, null values and
  other `Object`s are not modelled. `setProperty` is the same operation as `put`.
- Lengths are counted in Dafny characters. Over strings of Unicode scalar values this
  is not always Java's UTF-16 `length()`.
- Pairs.DefaultImpl.Equals compares only with another `DefaultImpl` of the same type
  parameters, or null. Comparison with objects of other classes is left out.
- Pairs.DefaultImpl.ToString: the components' own `toString()` are parameters
  (`showL`, `showR`). The NullPointerException that a null component would cause is not
  modelled.
- The no-argument `DefaultImpl()` constructor, which leaves both fields null, is left
  out. `hashCode` is left out too.
- Pairs.Extract does not fix the order of the pairs: a HashMap's iteration order is
  unspecified.
- The thread factory's `String.format` and `Thread` construction are left out. A name
  is the uninterpreted value `Formatted(pattern, index)`, and a thread is its name and
  its task.
