/**
 * The lifecycle of `DefaultReusableThreadExecutor` as a pure state
 * machine: the integer status, the FIFO queue, the executed-task counter
 * and where the single worker thread is. Every public operation and one
 * iteration of the worker loop is an atomic transition; threads,
 * blocking and locks are abstracted away.
 */
module Lifecycle {
  import opened Wrappers
  import opened Tasks
  import Rejection

  const StatusNew := 0
  const StatusIdle := 1
  const StatusRunning := 2
  const StatusShutdown := 3
  const StatusTerminated := 4

  /**
   * Where the current worker thread is: created by `start()` but not yet
   * at its first statement, inside the `while` loop, or finished (or
   * never replaced).
   */
  datatype Worker = Starting | Looping | Gone

  /** `interrupted` is the interrupt flag of the current worker thread. */
  datatype State = State(status: int, queue: seq<Task>, executed: nat, worker: Worker, interrupted: bool)

  /** Construction parameters: the queue's capacity (None: unbounded) and the rejection handler. */
  datatype Config = Config(capacity: Option<nat>, policy: Rejection.Policy)

  /** `queue.offer` fails exactly when a bounded queue is full. */
  predicate Full(cfg: Config, queue: seq<Task>)
  {
    cfg.capacity.Some? && |queue| >= cfg.capacity.value
  }

  predicate Fits(cfg: Config, queue: seq<Task>)
  {
    cfg.capacity.Some? ==> |queue| <= cfg.capacity.value
  }

  /** The status is one of the five constants and the queue is within its capacity. */
  ghost predicate Sane(cfg: Config, s: State)
  {
    StatusNew <= s.status <= StatusTerminated && Fits(cfg, s.queue)
  }

  /** What every reachable state satisfies: also, only a finished worker leaves TERMINATED behind. */
  ghost predicate Wf(cfg: Config, s: State)
  {
    Sane(cfg, s) && (s.worker != Gone ==> s.status < StatusTerminated)
  }

  predicate IsShutdown(s: State)
  {
    s.status >= StatusShutdown
  }

  predicate IsTerminated(s: State)
  {
    s.status >= StatusTerminated
  }

  /** isTerminated() implies isShutdown(). */
  lemma TerminatedIsShutdown(s: State)
    ensures IsTerminated(s) ==> IsShutdown(s)
  {
  }

  /**
   * The constructor: status NEW, the given queue, and the first worker
   * created by `start()` (which does not return early, NEW not being a
   * shutdown status).
   */
  function Initial(queue: seq<Task>): (s: State)
    ensures s.status == StatusNew && !IsShutdown(s)
    ensures s.queue == queue && s.executed == 0
    ensures s.worker == Starting && !s.interrupted
  {
    State(StatusNew, queue, 0, Starting, false)
  }

  lemma InitialWf(cfg: Config, queue: seq<Task>)
    requires Fits(cfg, queue)
    ensures Wf(cfg, Initial(queue))
  {
  }

  // ---------------------------------------------------------------- shutdown

  /** `shutdown()`: raises the status to SHUTDOWN unless it is already there or beyond. */
  function Shutdown(s: State): (r: State)
    ensures IsShutdown(r)
    ensures r.status == if s.status >= StatusShutdown then s.status else StatusShutdown
    ensures r.queue == s.queue && r.executed == s.executed
    ensures r.worker == s.worker && r.interrupted == s.interrupted
  {
    if IsShutdown(s) then s else s.(status := StatusShutdown)
  }

  /** A second `shutdown()` changes nothing. */
  lemma ShutdownIdempotent(s: State)
    ensures Shutdown(Shutdown(s)) == Shutdown(s)
  {
  }

  /**
   * `shutdownNow()`: nothing on a terminated executor; otherwise
   * interrupt the worker and drain the whole queue, in FIFO order.
   */
  function ShutdownNow(s: State): (r: (State, seq<Task>))
    ensures IsTerminated(s) ==> r == (s, [])
    ensures !IsTerminated(s) ==> r.1 == s.queue && r.0.queue == []
    ensures !IsTerminated(s) ==> r.0 == s.(queue := [], interrupted := true)
  {
    if IsTerminated(s) then (s, [])
    else
      var drained := s.queue;
      (s.(queue := [], interrupted := true), drained)
  }

  // ----------------------------------------------------------------- execute

  /** What `execute(command)` did. */
  datatype Submission =
    | NullCommand                           // threw NullPointerException
    | Accepted                              // offered to the queue
    | Refused(reaction: Rejection.Reaction) // handed to the rejection handler

  /**
   * `execute(command)`. `outcome` is how the task would end if the
   * handler ran it on the caller; `selfText` is the executor's
   * `toString()` at that moment.
   */
  function Execute(cfg: Config, s: State, cmd: Option<Task>, outcome: RunOutcome, selfText: string): (r: (State, Submission))
    ensures cmd == None ==> r == (s, NullCommand)
    ensures cmd.Some? ==> (r.1.Refused? <==> IsShutdown(s) || Full(cfg, s.queue))
    ensures cmd.Some? ==> (r.1 == Accepted <==> !IsShutdown(s) && !Full(cfg, s.queue))
    ensures r.1.Refused? ==> r.0 == s && r.1.reaction == Rejection.Reject(cfg.policy, cmd.value, outcome, selfText)
    ensures r.1 == Accepted ==> r.0 == s.(queue := s.queue + [cmd.value])
  {
    match cmd
    case None => (s, NullCommand)
    case Some(task) =>
      if IsShutdown(s) || Full(cfg, s.queue) then
        (s, Refused(Rejection.Reject(cfg.policy, task, outcome, selfText)))
      else
        (s.(queue := s.queue + [task]), Accepted)
  }

  // ------------------------------------------------------------- worker loop

  /**
   * The environment of one loop iteration: how the task's `run()` ends,
   * whether a `shutdown()` from another thread (or from the task itself)
   * lands while it runs, and whether a `shutdownNow()` does.
   */
  datatype StepInput = StepInput(outcome: RunOutcome, shutdownDuringRun: bool, stopNowDuringRun: bool)

  datatype StepResult =
    | NoWorker                        // no worker thread is alive
    | Began                           // a new worker set the status to IDLE
    | Blocked                         // the worker waits on an empty queue
    | Exited                          // an interrupt ended the wait; the loop ended normally
    | DroppedOnExit(task: Task)       // a task was taken but the executor was terminated
    | Ran(task: Task, outcome: RunOutcome, drained: seq<Task>)  // drained: what a shutdownNow() during the run returned

  /**
   * One atomic step of the worker thread of `start()`: its first
   * statement, or one iteration of its `while` loop with the `finally`
   * blocks that follow when the loop ends.
   */
  function Step(s: State, input: StepInput): (r: (State, StepResult))
    ensures s.worker == Gone ==> r == (s, NoWorker)
    ensures s.worker == Starting ==> r == (s.(status := StatusIdle, worker := Looping), Began)
    ensures s.worker == Looping && s.interrupted ==>
              r == (s.(status := StatusTerminated, worker := Gone), Exited)
    ensures s.worker == Looping && !s.interrupted && s.queue == [] ==> r == (s, Blocked)
    // a task is taken: exactly the head of the queue
    ensures s.worker == Looping && !s.interrupted && s.queue != [] ==>
              (r.1.Ran? || r.1.DroppedOnExit?) && r.1.task == s.queue[0]
    ensures r.1.Ran? || r.1.DroppedOnExit? ==> s.worker == Looping && !s.interrupted && s.queue != []
    ensures r.1.DroppedOnExit? ==> r.0.queue == s.queue[1..]
    // a shutdownNow() during the run drains the rest of the queue, in order
    ensures r.1.Ran? ==> s.queue == [r.1.task] + r.1.drained + r.0.queue
    ensures r.1.Ran? ==> r.1.drained == (if input.stopNowDuringRun then s.queue[1..] else [])
    // the counter counts every task that was run, however it ended
    ensures r.1.Ran? ==> r.0.executed == s.executed + 1 && r.1.outcome == input.outcome
    ensures !r.1.Ran? ==> r.0.executed == s.executed
    // RUNNING is written over any earlier status, so the task leaves IDLE behind
    // unless a shutdown() landed while it ran
    ensures r.1.Ran? && !input.shutdownDuringRun ==> r.0.status == StatusIdle
    ensures r.1.Ran? && input.shutdownDuringRun ==> r.0.status >= StatusShutdown
    // after a normal run the loop ends exactly when shut down with an empty queue,
    // and the worker then sets TERMINATED; otherwise it keeps the interrupt
    ensures r.1.Ran? && r.1.outcome == Normal ==>
              (r.0.worker == Gone <==> input.shutdownDuringRun && r.0.queue == [])
    ensures r.1.Ran? && r.1.outcome == Normal ==>
              if r.0.worker == Gone then r.0.status == StatusTerminated
              else r.0.worker == Looping && r.0.interrupted == input.stopNowDuringRun
    // after an abrupt run start() is called again: it does nothing when shut down,
    // and otherwise creates a fresh worker, so an interrupt from a shutdownNow()
    // during the run is lost; TERMINATED is never set on this path
    ensures r.1.Ran? && r.1.outcome == Abrupt ==> r.0.status != StatusTerminated
    ensures r.1.Ran? && r.1.outcome == Abrupt ==>
              if input.shutdownDuringRun then r.0.worker == Gone
              else r.0.worker == Starting && !r.0.interrupted
    ensures r.1.DroppedOnExit? ==> s.status >= StatusTerminated && r.0.status == StatusTerminated && r.0.worker == Gone
  {
    match s.worker
    case Gone => (s, NoWorker)
    case Starting => (s.(status := StatusIdle, worker := Looping), Began)
    case Looping =>
      if s.interrupted then
        (s.(status := StatusTerminated, worker := Gone), Exited)
      else if s.queue == [] then
        (s, Blocked)
      else
        var task, rest := s.queue[0], s.queue[1..];
        if IsTerminated(s) then
          (s.(queue := rest, status := StatusTerminated, worker := Gone), DroppedOnExit(task))
        else
          var running := s.(queue := rest, status := StatusRunning);
          var s1 := if input.shutdownDuringRun then Shutdown(running) else running;
          var (s2, drained) := if input.stopNowDuringRun then ShutdownNow(s1) else (s1, []);
          var after := if s2.status < StatusShutdown then StatusIdle else s2.status;
          var s3 := s2.(status := after, executed := s.executed + 1);
          if input.outcome == Abrupt then
            if IsShutdown(s3) then (s3.(worker := Gone), Ran(task, Abrupt, drained))
            else (s3.(worker := Starting, interrupted := false), Ran(task, Abrupt, drained))
          else if IsShutdown(s3) && s3.queue == [] then
            (s3.(status := StatusTerminated, worker := Gone), Ran(task, input.outcome, drained))
          else
            (s3, Ran(task, input.outcome, drained))
  }

  /**
   * The `!isTerminated()` test of the loop condition never fires: only
   * the exiting worker sets TERMINATED, so a live worker never sees it.
   */
  lemma LiveWorkerNeverDropsTask(cfg: Config, s: State, input: StepInput)
    requires Wf(cfg, s)
    ensures !Step(s, input).1.DroppedOnExit?
  {
  }

  /**
   * The lifecycle is not monotone: a task still queued at `shutdown()`
   * writes RUNNING over SHUTDOWN, leaves IDLE behind, and the executor
   * then admits new tasks again.
   */
  lemma StatusCanRegress(t: Task, u: Task, cfg: Config)
    requires cfg.capacity == None
    ensures var s := Shutdown(State(StatusIdle, [t], 0, Looping, false));
            var s1 := Step(s, StepInput(Normal, false, false)).0;
            IsShutdown(s) && !IsShutdown(s1) && s1.worker == Looping
            && Execute(cfg, s1, Some(u), Normal, "").1 == Accepted
  {
  }

  /**
   * A `shutdownNow()` between two steps always takes effect: the worker's
   * next wait is interrupted, and it exits and sets TERMINATED.
   */
  lemma StopNowBetweenStepsTerminates(cfg: Config, s: State, input: StepInput)
    requires Wf(cfg, s) && s.worker == Looping
    ensures var s1 := ShutdownNow(s).0;
            Step(s1, input) == (s1.(status := StatusTerminated, worker := Gone), Exited)
  {
  }

  /**
   * A `shutdownNow()` that lands while a task runs is lost when that task
   * throws: the task's `finally` resets IDLE, `start()` makes a fresh worker
   * that is not interrupted, and the executor goes on accepting and running
   * tasks without ever being shut down.
   */
  lemma InterruptLostOnAbruptRun(t: Task, u: Task, v: Task, cfg: Config)
    requires cfg.capacity == None
    ensures var s := State(StatusIdle, [t, u], 0, Looping, false);
            var (s1, r1) := Step(s, StepInput(Abrupt, false, true));
            var s2 := Step(s1, StepInput(Normal, false, false)).0;
            var (s3, sub) := Execute(cfg, s2, Some(v), Normal, "");
            var (s4, r4) := Step(s3, StepInput(Normal, false, false));
            r1 == Ran(t, Abrupt, [u]) && s1.queue == [] && !IsShutdown(s1)
            && s1.worker == Starting && !s1.interrupted
            && sub == Accepted && r4 == Ran(v, Normal, [])
            && s4.status == StatusIdle && s4.worker == Looping && !s4.interrupted
  {
  }

  // ------------------------------------------------------------ traces

  /** Everything that can happen to an executor, one atomic event at a time. */
  datatype Event =
    | Submit(cmd: Option<Task>, outcome: RunOutcome, selfText: string)
    | Work(input: StepInput)
    | Stop
    | StopNow

  /** The tasks an event or a trace admitted, removed from the queue (in order), and ran. */
  datatype Effect = Effect(accepted: seq<Task>, removed: seq<Task>, ran: nat)

  function Apply(cfg: Config, s: State, e: Event): (State, Effect)
  {
    match e
    case Submit(cmd, outcome, text) =>
      var (s1, sub) := Execute(cfg, s, cmd, outcome, text);
      (s1, Effect(if sub == Accepted then [cmd.value] else [], [], 0))
    case Work(input) =>
      var (s1, res) := Step(s, input);
      (match res
       case Ran(t, _, drained) => (s1, Effect([], [t] + drained, 1))
       case DroppedOnExit(t) => (s1, Effect([], [t], 0))
       case _ => (s1, Effect([], [], 0)))
    case Stop => (Shutdown(s), Effect([], [], 0))
    case StopNow =>
      var (s1, drained) := ShutdownNow(s);
      (s1, Effect([], drained, 0))
  }

  function Run(cfg: Config, s: State, events: seq<Event>): (State, Effect)
    decreases |events|
  {
    if events == [] then (s, Effect([], [], 0))
    else
      var (s1, e1) := Apply(cfg, s, events[0]);
      var (s2, e2) := Run(cfg, s1, events[1..]);
      (s2, Effect(e1.accepted + e2.accepted, e1.removed + e2.removed, e1.ran + e2.ran))
  }

  lemma ApplyKeepsFifo(cfg: Config, s: State, e: Event)
    ensures var (s1, eff) := Apply(cfg, s, e);
            s.queue + eff.accepted == eff.removed + s1.queue
            && s1.executed == s.executed + eff.ran
  {
  }

  lemma ApplyKeepsWf(cfg: Config, s: State, e: Event)
    requires Wf(cfg, s)
    ensures Wf(cfg, Apply(cfg, s, e).0)
  {
  }

  /**
   * Over any trace the queue is FIFO: the tasks that were queued at the
   * start followed by the tasks admitted are exactly the tasks removed
   * (run, or drained by `shutdownNow`) followed by what is still queued;
   * and `tasksExecuted` grows by exactly the number of tasks run.
   */
  lemma {:induction false} RunKeepsFifo(cfg: Config, s: State, events: seq<Event>)
    ensures var (s1, eff) := Run(cfg, s, events);
            s.queue + eff.accepted == eff.removed + s1.queue
            && s1.executed == s.executed + eff.ran
    decreases |events|
  {
    if events != [] {
      var (s1, e1) := Apply(cfg, s, events[0]);
      var (s2, e2) := Run(cfg, s1, events[1..]);
      assert Run(cfg, s, events) == (s2, Effect(e1.accepted + e2.accepted, e1.removed + e2.removed, e1.ran + e2.ran));
      ApplyKeepsFifo(cfg, s, events[0]);
      RunKeepsFifo(cfg, s1, events[1..]);
      Regroup(s.queue, e1.accepted, e2.accepted, e1.removed, e2.removed, s1.queue, s2.queue);
    }
  }

  /** Two FIFO steps in a row make one. */
  lemma Regroup(q: seq<Task>, a1: seq<Task>, a2: seq<Task>, d1: seq<Task>, d2: seq<Task>, q1: seq<Task>, q2: seq<Task>)
    requires q + a1 == d1 + q1 && q1 + a2 == d2 + q2
    ensures q + (a1 + a2) == (d1 + d2) + q2
  {
    calc {
      q + (a1 + a2);
      (q + a1) + a2;
      (d1 + q1) + a2;
      d1 + (q1 + a2);
      d1 + (d2 + q2);
      (d1 + d2) + q2;
    }
  }

  /** Every trace from a well-formed state stays well-formed. */
  lemma {:induction false} RunKeepsWf(cfg: Config, s: State, events: seq<Event>)
    requires Wf(cfg, s)
    ensures Wf(cfg, Run(cfg, s, events).0)
    decreases |events|
  {
    if events != [] {
      ApplyKeepsWf(cfg, s, events[0]);
      RunKeepsWf(cfg, Apply(cfg, s, events[0]).0, events[1..]);
    }
  }

  predicate AllSubmits(events: seq<Event>)
  {
    forall i :: 0 <= i < |events| ==> events[i].Submit?
  }

  /**
   * With the Discard policy, once shut down, any number of submissions
   * leaves the executor exactly as it was and admits nothing.
   */
  lemma {:induction false} DiscardWhenShutdownIsNoOp(cfg: Config, s: State, events: seq<Event>)
    requires cfg.policy == Rejection.Discard && IsShutdown(s) && AllSubmits(events)
    ensures Run(cfg, s, events) == (s, Effect([], [], 0))
    decreases |events|
  {
    if events != [] {
      DiscardWhenShutdownIsNoOp(cfg, s, events[1..]);
    }
  }

  // --------------------------------------------------- bulk argument checks

  /** The argument check of both `invokeAll` overloads. */
  function InvokeAllCheck<C>(tasks: Option<seq<C>>): (r: Option<Failure>)
    ensures r == None <==> tasks.Some?
    ensures r != None ==> r == Some(NullPointer)
  {
    if tasks.None? then Some(NullPointer) else None
  }

  /** The argument checks of `doInvokeAny`: a null collection, then an empty one. */
  function InvokeAnyCheck<C>(tasks: Option<seq<C>>): (r: Option<Failure>)
    ensures r == Some(NullPointer) <==> tasks.None?
    ensures r == Some(IllegalArgument) <==> tasks == Some([])
    ensures r == None <==> tasks.Some? && |tasks.value| > 0
  {
    match tasks
    case None => Some(NullPointer)
    case Some(ts) => if |ts| == 0 then Some(IllegalArgument) else None
  }
}
