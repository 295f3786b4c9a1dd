/** The worker pool of `worker_pool.h`: a bounded FIFO queue and threads that take tasks from it. */
module WorkerPool {
  import opened Bytes

  const MAX_QUEUE_SIZE: nat := 10000

  /** Where a worker thread stands: at the loop test, at the condition variable, in a task, or gone. */
  datatype Worker<T> = Checking | Waiting | Running(task: T) | Exited

  /** `accepted`, `started` and `finished` record the past; the program does not store them. */
  datatype Pool<T> = Pool(tasks: seq<T>, stopped: bool, workers: seq<Worker<T>>,
                          accepted: seq<T>, started: seq<T>, finished: nat)

  // ----- Critical sections -----

  /** Lines 72-83; `None` where `submit` throws because the queue is full. */
  function Submitted<T>(tasks: seq<T>, task: T): Option<seq<T>> {
    if |tasks| >= MAX_QUEUE_SIZE then None else Some(tasks + [task])
  }

  /** What a woken worker does, lines 33-36: nothing after `stopped`, else it takes the oldest task. */
  datatype Taken<T> = Leave | Take(task: T, rest: seq<T>)

  function Woken<T>(tasks: seq<T>, stopped: bool): Taken<T>
    requires tasks != [] || stopped
  {
    if stopped then Leave else Take(tasks[0], tasks[1..])
  }

  /** The shared fields; each method is one critical section. */
  class Queue<T> {
    var tasks: seq<T>
    var stopped: bool

    constructor ()
      ensures tasks == [] && !stopped
    {
      tasks, stopped := [], false;
    }

    method Submit(task: T) returns (ok: bool)
      modifies this`tasks
      ensures ok == Submitted(old(tasks), task).Some? == (|old(tasks)| < 10000)
      ensures tasks == old(tasks) + if ok then [task] else []
    {
      if |tasks| >= MAX_QUEUE_SIZE { return false; }
      tasks := tasks + [task];
      ok := true;
    }

    /** Lines 32-36, once the wait is over. */
    method TakeNext() returns (task: Option<T>)
      requires tasks != [] || stopped
      modifies this`tasks
      ensures stopped ==> Woken(old(tasks), stopped).Leave? && task == None && tasks == old(tasks)
      ensures !stopped ==>
        task.Some? && Woken(old(tasks), stopped) == Take(task.value, tasks) && old(tasks) == [task.value] + tasks
    {
      if stopped { return None; }
      task := Some(tasks[0]);
      tasks := tasks[1..];
    }

    /** Lines 85-92; a second call finds nothing to do. */
    method Stop() returns (first: bool)
      modifies this`stopped
      ensures stopped && first == !old(stopped)
    {
      if stopped { return false; }
      stopped := true;
      first := true;
    }
  }

  // ----- All interleavings -----

  datatype Step<T> =
    | Submit(task: T)
    | Check(w: nat)
    | Wake(w: nat)
    | Finish(w: nat)
    | Stop

  ghost predicate Enabled<T(!new)>(p: Pool<T>, step: Step<T>) {
    match step
    case Submit(_) => true
    case Check(w) => w < |p.workers| && p.workers[w] == Checking
    case Wake(w) => w < |p.workers| && p.workers[w] == Waiting && (p.tasks != [] || p.stopped)
    case Finish(w) => w < |p.workers| && p.workers[w].Running?
    case Stop => true
  }

  /** A task that throws ends like one that returns: lines 38-45. */
  ghost function After<T(!new)>(p: Pool<T>, step: Step<T>): Pool<T>
    requires Enabled(p, step)
  {
    match step
    case Submit(task) =>
      var r := Submitted(p.tasks, task);
      if r.None? then p else p.(tasks := r.value, accepted := p.accepted + [task])
    case Check(w) =>
      p.(workers := p.workers[w := if p.stopped then Exited else Waiting])
    case Wake(w) =>
      (match Woken(p.tasks, p.stopped)
       case Leave => p.(workers := p.workers[w := Exited])
       case Take(task, rest) =>
         p.(tasks := rest, started := p.started + [task], workers := p.workers[w := Running(task)]))
    case Finish(w) =>
      p.(workers := p.workers[w := Checking], finished := p.finished + 1)
    case Stop => p.(stopped := true)
  }

  ghost predicate Initial<T(!new)>(p: Pool<T>) {
    && p.tasks == [] && !p.stopped && p.accepted == [] && p.started == [] && p.finished == 0
    && forall w :: 0 <= w < |p.workers| ==> p.workers[w] == Checking
  }

  ghost predicate IsRun<T(!new)>(states: seq<Pool<T>>, steps: seq<Step<T>>) {
    && |states| == |steps| + 1
    && Initial(states[0])
    && forall i :: 0 <= i < |steps| ==> Enabled(states[i], steps[i]) && states[i + 1] == After(states[i], steps[i])
  }

  function RunningCount<T>(workers: seq<Worker<T>>): nat {
    if workers == [] then 0 else (if workers[0].Running? then 1 else 0) + RunningCount(workers[1..])
  }

  /**
   The accepted tasks are the started ones followed by the queued ones, in order, and
   the started ones are those that ended and those now running.
  */
  ghost predicate Conserved<T(!new)>(p: Pool<T>) {
    && p.accepted == p.started + p.tasks
    && |p.tasks| <= MAX_QUEUE_SIZE
    && |p.started| == p.finished + RunningCount(p.workers)
  }

  lemma {:induction false} OneWorkerMoves<T>(workers: seq<Worker<T>>, w: nat, x: Worker<T>)
    requires w < |workers|
    ensures RunningCount(workers[w := x]) + (if workers[w].Running? then 1 else 0) ==
      RunningCount(workers) + (if x.Running? then 1 else 0)
    decreases |workers|
  {
    if w == 0 {
      assert workers[w := x][1..] == workers[1..];
    } else {
      assert workers[w := x][1..] == workers[1..][w - 1 := x];
      OneWorkerMoves(workers[1..], w - 1, x);
    }
  }

  lemma {:induction false} NoneRunning<T>(workers: seq<Worker<T>>)
    requires forall w :: 0 <= w < |workers| ==> !workers[w].Running?
    ensures RunningCount(workers) == 0
    decreases |workers|
  {
    if workers != [] { NoneRunning(workers[1..]); }
  }

  lemma StepConserves<T(!new)>(p: Pool<T>, step: Step<T>)
    requires Conserved(p) && Enabled(p, step)
    ensures Conserved(After(p, step))
  {
    var p' := After(p, step);
    match step
    case Submit(_) =>
    case Check(w) => OneWorkerMoves(p.workers, w, p'.workers[w]);
    case Wake(w) => OneWorkerMoves(p.workers, w, p'.workers[w]);
    case Finish(w) => OneWorkerMoves(p.workers, w, p'.workers[w]);
    case Stop =>
  }

  lemma {:induction false} RunsConserve<T(!new)>(states: seq<Pool<T>>, steps: seq<Step<T>>, i: nat)
    requires IsRun(states, steps) && i < |states|
    ensures Conserved(states[i])
  {
    if i == 0 {
      NoneRunning(states[0].workers);
    } else {
      RunsConserve(states, steps, i - 1);
      StepConserves(states[i - 1], steps[i - 1]);
    }
  }

  /** A task is accepted as long as fewer than 10000 accepted ones have not started, and is refused otherwise. */
  lemma AcceptedIff<T(!new)>(states: seq<Pool<T>>, steps: seq<Step<T>>, i: nat, task: T)
    requires IsRun(states, steps) && i < |steps| && steps[i] == Submit(task)
    ensures states[i + 1].started == states[i].started
    ensures states[i + 1].accepted ==
      states[i].accepted + if |states[i].accepted| - |states[i].started| < 10000 then [task] else []
  {
    RunsConserve(states, steps, i);
  }

  /** Until the stop, a woken worker runs the oldest accepted task that has not started. */
  lemma WokenRuns<T(!new)>(states: seq<Pool<T>>, steps: seq<Step<T>>, i: nat, w: nat)
    requires IsRun(states, steps) && i < |steps| && steps[i] == Wake(w) && !states[i].stopped
    ensures |states[i].started| < |states[i].accepted|
    ensures var task := states[i].accepted[|states[i].started|];
      states[i + 1].started == states[i].started + [task] && states[i + 1].workers[w] == Running(task)
  {
    RunsConserve(states, steps, i);
  }

  /**
   Tasks start in the order of their acceptance, each at most once: `started` only
   grows, at its end, and is always a prefix of what has been accepted. Once the pool
   is stopped it does not grow any more.
  */
  lemma {:induction false} StartsInOrder<T(!new)>(states: seq<Pool<T>>, steps: seq<Step<T>>, i: nat, j: nat)
    requires IsRun(states, steps) && i <= j < |states|
    ensures states[i].started <= states[j].started <= states[j].accepted
    ensures states[i].stopped ==> states[j].stopped && states[j].started == states[i].started
    decreases j
  {
    RunsConserve(states, steps, j);
    if i < j {
      StartsInOrder(states, steps, i, j - 1);
    }
  }

  // ----- Shutting down -----

  function StepsLeft<T>(worker: Worker<T>): nat {
    match worker
    case Running(_) => 2
    case Checking => 1
    case Waiting => 1
    case Exited => 0
  }

  function AllStepsLeft<T>(workers: seq<Worker<T>>): nat {
    if workers == [] then 0 else StepsLeft(workers[0]) + AllStepsLeft(workers[1..])
  }

  lemma {:induction false} OneWorkerSteps<T>(workers: seq<Worker<T>>, w: nat, x: Worker<T>)
    requires w < |workers|
    ensures AllStepsLeft(workers[w := x]) + StepsLeft(workers[w]) == AllStepsLeft(workers) + StepsLeft(x)
    decreases |workers|
  {
    if w == 0 {
      assert workers[w := x][1..] == workers[1..];
    } else {
      assert workers[w := x][1..] == workers[1..][w - 1 := x];
      OneWorkerSteps(workers[1..], w - 1, x);
    }
  }

  /**
   The joins of `shutdown` end: every step of a worker is one of finitely many left, and a
   worker that cannot step is gone.
  */
  lemma WorkersLeave<T(!new)>(p: Pool<T>, step: Step<T>)
    requires p.stopped && Enabled(p, step)
    ensures step.Submit? || step.Stop? ==> After(p, step).workers == p.workers
    ensures !step.Submit? && !step.Stop? ==> AllStepsLeft(After(p, step).workers) < AllStepsLeft(p.workers)
    ensures forall w :: 0 <= w < |p.workers| ==>
      p.workers[w] == Exited || Enabled(p, Check(w)) || Enabled(p, Wake(w)) || Enabled(p, Finish(w))
  {
    var p' := After(p, step);
    match step
    case Submit(_) =>
    case Check(w) => OneWorkerSteps(p.workers, w, p'.workers[w]);
    case Wake(w) => OneWorkerSteps(p.workers, w, p'.workers[w]);
    case Finish(w) => OneWorkerSteps(p.workers, w, p'.workers[w]);
    case Stop =>
  }

  /** When all workers are gone, what was accepted has either run to its end or is still queued, never to start. */
  lemma AfterShutdown<T(!new)>(states: seq<Pool<T>>, steps: seq<Step<T>>, i: nat)
    requires IsRun(states, steps) && i < |states|
    requires forall w :: 0 <= w < |states[i].workers| ==> states[i].workers[w] == Exited
    ensures states[i].finished == |states[i].started|
    ensures states[i].accepted == states[i].started + states[i].tasks
  {
    RunsConserve(states, steps, i);
    NoneRunning(states[i].workers);
  }
}
