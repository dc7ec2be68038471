/** The rejection handler that discards a rejected task and counts it. */
module CountingHandler {
  import opened Wrappers
  import opened Tasks
  import Rejection

  class CountableRejectedExecutionHandler {
    var counter: nat
    var last: Option<Task>

    constructor ()
      ensures GetCount() == 0 && GetLastRejectedTask() == None
    {
      counter := 0;
      last := None;
    }

    /** `getCount()` */
    function GetCount(): (n: nat)
      reads this
      ensures n == counter
    {
      counter
    }

    /** `getLastRejectedTask()`: None stands for null. */
    function GetLastRejectedTask(): (r: Option<Task>)
      reads this
      ensures r == last
    {
      last
    }

    /**
     * `rejectedExecution(r, executor)`: records `r` as the last rejected
     * task and counts it; `r` is not run and nothing escapes to the caller.
     */
    method RejectedExecution(r: Task) returns (reaction: Rejection.Reaction)
      modifies this
      ensures GetCount() == old(GetCount()) + 1
      ensures GetLastRejectedTask() == Some(r)
      ensures Rejection.TasksRun(reaction) == [] && Rejection.Escaped(reaction) == None
    {
      last := Some(r);
      counter := counter + 1;
      reaction := Rejection.Dropped;
    }
  }
}
