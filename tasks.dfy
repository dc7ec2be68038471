/**
 * Tasks as the executor sees them: opaque units of work that either
 * complete normally or throw when run, plus the failures the executor
 * and its rejection handlers raise.
 */
module Tasks {

  /** A `Runnable`. `text` is what its `toString()` returns. */
  datatype Task = Task(id: nat, text: string)

  /** How a run of a task ends: normally, or by throwing. */
  datatype RunOutcome = Normal | Abrupt

  /** The exceptions raised by the modelled code. */
  datatype Failure =
    | NullPointer                      // NullPointerException
    | IllegalArgument                  // IllegalArgumentException
    | RejectedExecution(message: string)
    | TaskFailed(task: Task)           // whatever the task itself threw

  /**
   * `CallableAdapter`: lets a `Runnable` be submitted as a `Callable` that
   * returns a fixed, caller-supplied result.
   */
  datatype CallableAdapter<T> = CallableAdapter(r: Task, t: T)

  datatype CallResult<T> = Returned(value: T) | Thrown(failure: Failure)

  /**
   * `CallableAdapter.call()`: runs the wrapped task and then returns the
   * fixed result; a failure of the task propagates unchanged.
   */
  function Call<T>(a: CallableAdapter<T>, outcome: RunOutcome): (res: CallResult<T>)
    ensures outcome == Normal ==> res == Returned(a.t)
    ensures outcome == Abrupt ==> res == Thrown(TaskFailed(a.r))
  {
    match outcome
    case Normal => Returned(a.t)
    case Abrupt => Thrown(TaskFailed(a.r))
  }
}
