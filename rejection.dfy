/**
 * What happens to a task that the executor cannot queue. The four
 * policies are the stateless singletons `AbortRejectionHandler`,
 * `CallerRunsRejectionHandler` and `DiscardRejectionHandler`, and any
 * other handler the caller injects.
 */
module Rejection {
  import opened Wrappers
  import opened Tasks

  datatype Policy = Abort | CallerRuns | Discard | Custom(handler: nat)

  /** `AbortRejectionHandler.instance()`: the singleton behaves as Abort on every task. */
  function AbortInstance(): (p: Policy)
    ensures forall task, outcome, text :: Reject(p, task, outcome, text) == MergedRejectedExecution(task, text)
  {
    Abort
  }

  /** `CallerRunsRejectionHandler.instance()` */
  function CallerRunsInstance(): (p: Policy)
    ensures forall task, outcome, text :: Reject(p, task, outcome, text) == CallerRunsReject(task, outcome)
  {
    CallerRuns
  }

  /** `DiscardRejectionHandler.instance()` */
  function DiscardInstance(): (p: Policy)
    ensures forall task, outcome, text :: Reject(p, task, outcome, text) == DiscardReject(task)
  {
    Discard
  }

  /** What one call of a handler did. */
  datatype Reaction =
    | Raised(failure: Failure)                     // the handler threw
    | RanOnCaller(task: Task, outcome: RunOutcome)  // task.run() on the submitting thread
    | Dropped                                      // nothing at all
    | Delegated(handler: nat, task: Task)          // handed to an injected callback

  /** The tasks a reaction ran on the caller's thread, in order. */
  function TasksRun(r: Reaction): seq<Task>
  {
    if r.RanOnCaller? then [r.task] else []
  }

  /** The exception that leaves the handler, if any. */
  function Escaped(r: Reaction): Option<Failure>
  {
    match r
    case Raised(f) => Some(f)
    case RanOnCaller(t, outcome) => if outcome == Abrupt then Some(TaskFailed(t)) else None
    case Dropped => None
    case Delegated(_, _) => None
  }

  /** The message of the `RejectedExecutionException` that Abort throws. */
  function AbortMessage(task: Task, executorText: string): (m: string)
    ensures |m| == |task.text| + 4 + |executorText|
    ensures m[..|task.text|] == task.text
    ensures m[|task.text|..|task.text| + 4] == " in "
    ensures m[|task.text| + 4..] == executorText
  {
    task.text + " in " + executorText
  }

  /**
   * `AbortRejectionHandler.mergedRejectedExecution`: never returns
   * normally and runs nothing; it throws a rejection naming the task and
   * the executor (`executorText` is the executor's `toString()`).
   */
  function MergedRejectedExecution(task: Task, executorText: string): (r: Reaction)
    ensures Escaped(r) == Some(RejectedExecution(AbortMessage(task, executorText)))
    ensures TasksRun(r) == []
  {
    Raised(RejectedExecution(AbortMessage(task, executorText)))
  }

  /**
   * `CallerRunsRejectionHandler.reject`: runs the task once, synchronously,
   * and lets its failure propagate.
   */
  function CallerRunsReject(task: Task, outcome: RunOutcome): (r: Reaction)
    ensures TasksRun(r) == [task]
    ensures Escaped(r) == if outcome == Abrupt then Some(TaskFailed(task)) else None
  {
    RanOnCaller(task, outcome)
  }

  /** `DiscardRejectionHandler.reject`: returns normally and runs nothing. */
  function DiscardReject(task: Task): (r: Reaction)
    ensures TasksRun(r) == [] && Escaped(r) == None
  {
    Dropped
  }

  /**
   * One call of the configured handler for a rejected task. `outcome` is
   * how the task would end if the handler ran it.
   */
  function Reject(policy: Policy, task: Task, outcome: RunOutcome, executorText: string): (r: Reaction)
    ensures policy == Abort ==> r == MergedRejectedExecution(task, executorText)
    ensures policy == CallerRuns ==> r == CallerRunsReject(task, outcome)
    ensures policy == Discard ==> r == DiscardReject(task)
    ensures policy.Custom? ==> r == Delegated(policy.handler, task)
    ensures |TasksRun(r)| <= 1
    ensures TasksRun(r) != [] <==> policy == CallerRuns
  {
    match policy
    case Abort => MergedRejectedExecution(task, executorText)
    case CallerRuns => CallerRunsReject(task, outcome)
    case Discard => DiscardReject(task)
    case Custom(h) => Delegated(h, task)
  }
}
