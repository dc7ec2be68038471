/**
 * `DefaultReusableThreadExecutor` as an object: its fields are updated in
 * place by atomic methods, each proved to perform the matching
 * transition of the `Lifecycle` state machine.
 */
module Executor {
  import opened Wrappers
  import opened Tasks
  import Rejection
  import opened Lifecycle

  class ReusableThreadExecutor {
    var status: int
    var queue: seq<Task>
    var tasksExecuted: nat
    var worker: Worker
    var interrupted: bool
    const capacity: Option<nat>
    const policy: Rejection.Policy

    function Cfg(): Config
    {
      Config(capacity, policy)
    }

    function State(): Lifecycle.State
      reads this
    {
      Lifecycle.State(status, queue, tasksExecuted, worker, interrupted)
    }

    /** The invariant of every reachable state (`Lifecycle.RunKeepsWf`). */
    ghost predicate Valid()
      reads this
    {
      Wf(Cfg(), State())
    }

    /**
     * The three-argument constructor over a queue that already holds
     * `initial`; `start()` creates the first worker.
     */
    constructor (initial: seq<Task>, capacity: Option<nat>, policy: Rejection.Policy)
      requires Fits(Config(capacity, policy), initial)
      ensures Valid()
      ensures this.capacity == capacity && this.policy == policy
      ensures State() == Initial(initial)
    {
      this.capacity := capacity;
      this.policy := policy;
      status := StatusNew;
      queue := initial;
      tasksExecuted := 0;
      worker := Starting;
      interrupted := false;
    }

    /** The one-argument constructor: the default handler is Abort. */
    constructor WithDefaults(initial: seq<Task>, capacity: Option<nat>)
      requires Fits(Config(capacity, Rejection.AbortInstance()), initial)
      ensures Valid()
      ensures this.capacity == capacity && this.policy == Rejection.Abort
      ensures State() == Initial(initial)
    {
      this.capacity := capacity;
      this.policy := Rejection.AbortInstance();
      status := StatusNew;
      queue := initial;
      tasksExecuted := 0;
      worker := Starting;
      interrupted := false;
    }

    /** `getStatus()`: always one of the five status constants. */
    function GetStatus(): (s: int)
      reads this
      requires Valid()
      ensures StatusNew <= s <= StatusTerminated
    {
      status
    }

    /** `getTasksExecuted()`: the counter that `Lifecycle.Step` raises once per task run. */
    function GetTasksExecuted(): (n: nat)
      reads this
      ensures n == State().executed
    {
      tasksExecuted
    }

    function IsShutdown(): (b: bool)
      reads this
      ensures b <==> status >= StatusShutdown
    {
      Lifecycle.IsShutdown(State())
    }

    function IsTerminated(): (b: bool)
      reads this
      ensures b <==> status >= StatusTerminated
      ensures b ==> IsShutdown()
    {
      Lifecycle.IsTerminated(State())
    }

    /** `awaitTermination` is a stub in the source: it reports failure whatever the state. */
    method AwaitTermination(timeout: int) returns (terminated: bool)
      ensures !terminated
    {
      terminated := false;
    }

    method Shutdown()
      requires Valid()
      modifies this
      ensures Valid()
      ensures State() == Lifecycle.Shutdown(old(State()))
    {
      if status >= StatusShutdown {
        return;
      }
      status := StatusShutdown;
    }

    method ShutdownNow() returns (tasks: seq<Task>)
      requires Valid()
      modifies this
      ensures Valid()
      ensures (State(), tasks) == Lifecycle.ShutdownNow(old(State()))
    {
      if IsTerminated() {
        return [];
      }
      interrupted := true;
      tasks := queue;
      queue := [];
    }

    method Execute(command: Option<Task>, outcome: RunOutcome, selfText: string) returns (r: Submission)
      requires Valid()
      modifies this
      ensures Valid()
      ensures (State(), r) == Lifecycle.Execute(Cfg(), old(State()), command, outcome, selfText)
    {
      if command.None? {
        return NullCommand;
      }
      var task := command.value;
      if IsShutdown() || (capacity.Some? && |queue| >= capacity.value) {
        r := Refused(Rejection.Reject(policy, task, outcome, selfText));
      } else {
        queue := queue + [task];
        r := Accepted;
      }
    }

    /** One step of the worker thread, as in `start()` and `getTask()`. */
    method WorkerStep(input: StepInput) returns (r: StepResult)
      requires Valid()
      modifies this
      ensures Valid()
      ensures (State(), r) == Step(old(State()), input)
    {
      match worker
      case Gone =>
        r := NoWorker;
      case Starting =>
        status := StatusIdle;
        worker := Looping;
        r := Began;
      case Looping =>
        // getTask(): an interrupted take() yields no task
        if interrupted {
          status := StatusTerminated;
          worker := Gone;
          return Exited;
        }
        if queue == [] {
          return Blocked;
        }
        var task := queue[0];
        queue := queue[1..];
        // the loop condition's `!isTerminated()`: only an exiting worker sets
        // TERMINATED, so a live one never sees it (Lifecycle.LiveWorkerNeverDropsTask)
        if IsTerminated() {
          assert false;
        }
        status := StatusRunning;
        if input.shutdownDuringRun {
          Shutdown();
        }
        var drained: seq<Task> := [];
        if input.stopNowDuringRun {
          drained := ShutdownNow();
        }
        // the finally block of the task
        if status < StatusShutdown {
          status := StatusIdle;
        }
        tasksExecuted := tasksExecuted + 1;
        if input.outcome == Abrupt {
          // the outer finally calls start(), which returns at once when shut down
          // and otherwise replaces the (possibly interrupted) thread by a fresh one
          if !IsShutdown() {
            worker := Starting;
            interrupted := false;
          } else {
            worker := Gone;
          }
        } else if IsShutdown() && queue == [] {
          status := StatusTerminated;
          worker := Gone;
        }
        r := Ran(task, input.outcome, drained);
    }
  }
}
