/** The worker pool of `test.py` as a state machine: one main thread, any number of workers, two
    FIFO queues and an asynchronous interrupt flag. A schedule is a sequence of atomic actions;
    every interleaving of the program is a legal schedule. */
module WorkerPool {

  /** What `run_tests` fixes about a job before dispatching it. `exitCode` is the return code its
      process reports when it is run. */
  datatype Task = Task(displayName: string, isSkip: bool, skipReason: string, exitCode: int)

  /** A job object. `id` is its dispatch position; the jobs that tell a worker to stop carry -1. */
  datatype Job = Job(id: int, task: Task, isBreak: bool, returnCode: int)

  /** Where a worker stands in its loop: waiting on the input queue, having taken a job it has not
      looked at, running a process, about to report a job, or returned. */
  datatype Worker = Idle | Got(job: Job) | Running(job: Job) | Holding(job: Job) | Exited

  /** The main thread's position is given by its four counts: it dispatches every task, then puts one
      break job per worker, then collects one result per task, then joins the workers in order. */
  datatype State = State(
    tasks: seq<Task>,
    dispatched: nat,
    poisoned: nat,
    joined: nat,
    input: seq<Job>,
    workers: seq<Worker>,
    output: seq<Job>,
    collected: seq<Job>,
    threadExit: bool)

  datatype Action =
    | Dispatch | PutBreak | Collect | Join
    | Get(w: nat) | Check(w: nat) | Finish(w: nat) | Put(w: nat)
    | Sigint

  const NO_TASK := Task("", false, "", 0)
  const BREAK_JOB := Job(-1, NO_TASK, true, 0)

  function FreshJob(tasks: seq<Task>, id: nat): Job
    requires id < |tasks|
  {
    Job(id, tasks[id], false, 0)
  }

  function Initial(tasks: seq<Task>, processors: nat): State
  {
    State(tasks, 0, 0, 0, [], seq(processors, _ => Idle), [], [], false)
  }

  predicate Dispatching(s: State) { s.dispatched < |s.tasks| }

  predicate Poisoning(s: State) { s.dispatched == |s.tasks| && s.poisoned < |s.workers| }

  predicate Dispatched(s: State) { s.dispatched == |s.tasks| && s.poisoned == |s.workers| }

  predicate Enabled(s: State, a: Action)
  {
    match a
    case Dispatch => Dispatching(s)
    case PutBreak => Poisoning(s)
    case Collect => Dispatched(s) && |s.collected| < |s.tasks| && s.output != []
    case Join => Dispatched(s) && |s.collected| == |s.tasks|
                 && s.joined < |s.workers| && s.workers[s.joined].Exited?
    case Get(w) => w < |s.workers| && s.workers[w].Idle? && s.input != []
    case Check(w) => w < |s.workers| && s.workers[w].Got?
    case Finish(w) => w < |s.workers| && s.workers[w].Running?
    case Put(w) => w < |s.workers| && s.workers[w].Holding?
    case Sigint => !s.threadExit
  }

  /** The branch a worker takes once it holds a job: return on a break job, hand the job straight
      back when interrupted or when it is to be skipped, otherwise run it. */
  function Decide(job: Job, threadExit: bool): Worker
  {
    if job.isBreak then Exited
    else if threadExit then Holding(job.(isBreak := true))
    else if job.task.isSkip then Holding(job)
    else Running(job)
  }

  function Next(s: State, a: Action): State
    requires Enabled(s, a)
  {
    match a
    case Dispatch => s.(input := s.input + [FreshJob(s.tasks, s.dispatched)], dispatched := s.dispatched + 1)
    case PutBreak => s.(input := s.input + [BREAK_JOB], poisoned := s.poisoned + 1)
    case Collect => s.(collected := s.collected + [s.output[0]], output := s.output[1..])
    case Join => s.(joined := s.joined + 1)
    case Get(w) => s.(workers := s.workers[w := Got(s.input[0])], input := s.input[1..])
    case Check(w) => s.(workers := s.workers[w := Decide(s.workers[w].job, s.threadExit)])
    case Finish(w) =>
      var job := s.workers[w].job;
      s.(workers := s.workers[w := Holding(job.(returnCode := job.task.exitCode))])
    case Put(w) => s.(output := s.output + [s.workers[w].job], workers := s.workers[w := Idle])
    case Sigint => s.(threadExit := true)
  }

  predicate Done(s: State)
  {
    Dispatched(s) && |s.collected| == |s.tasks| && s.joined == |s.workers|
  }

  /** The program can move on its own; `Sigint` comes from outside. */
  ghost predicate CanProceed(s: State)
  {
    exists a :: a != Sigint && Enabled(s, a)
  }

  ghost predicate Legal(s: State, schedule: seq<Action>)
    decreases |schedule|
  {
    schedule == [] || (Enabled(s, schedule[0]) && Legal(Next(s, schedule[0]), schedule[1..]))
  }

  ghost function Run(s: State, schedule: seq<Action>): State
    requires Legal(s, schedule)
    decreases |schedule|
  {
    if schedule == [] then s else Run(Next(s, schedule[0]), schedule[1..])
  }

  // ---------------------------------------------------------------- where every job is

  ghost function InQueue(jobs: seq<Job>, id: int): nat
  {
    if jobs == [] then 0 else (if jobs[0].id == id then 1 else 0) + InQueue(jobs[1..], id)
  }

  /** A worker that returned keeps the break job it consumed. */
  ghost function InHand(w: Worker, id: int): nat
  {
    match w
    case Idle => 0
    case Exited => if id == -1 then 1 else 0
    case _ => if w.job.id == id then 1 else 0
  }

  ghost function InHands(ws: seq<Worker>, id: int): nat
  {
    if ws == [] then 0 else InHand(ws[0], id) + InHands(ws[1..], id)
  }

  /** How many places hold job `id`: the input queue, the workers' hands, the output queue and the
      collected results, counted with multiplicity. */
  ghost function Places(s: State, id: int): nat
  {
    InQueue(s.input, id) + InHands(s.workers, id) + InQueue(s.output, id) + InQueue(s.collected, id)
  }

  /** Jobs 0 to `dispatched` - 1 are in one place each, and there are `poisoned` break jobs. */
  ghost function Expected(s: State, id: int): nat
  {
    if 0 <= id < s.dispatched then 1 else if id == -1 then s.poisoned else 0
  }

  /** How many workers are not waiting on the input queue. */
  ghost function Busy(ws: seq<Worker>): nat
  {
    if ws == [] then 0 else (if ws[0].Idle? then 0 else 1) + Busy(ws[1..])
  }

  /** No job is lost or made up: what was put into the input queue is in it, with a busy worker, in
      the output queue or collected. */
  ghost predicate Conserved(s: State)
  {
    |s.input| + Busy(s.workers) + |s.output| + |s.collected| == s.dispatched + s.poisoned
  }

  lemma {:induction false} BusyUpdate(ws: seq<Worker>, w: nat, x: Worker)
    requires w < |ws|
    ensures Busy(ws[w := x]) + (if ws[w].Idle? then 0 else 1) == Busy(ws) + (if x.Idle? then 0 else 1)
  {
    var us := ws[w := x];
    if w == 0 {
      assert us[1..] == ws[1..];
    } else {
      BusyUpdate(ws[1..], w - 1, x);
      assert us[1..] == ws[1..][w - 1 := x];
    }
  }

  lemma ConservedStep(s: State, a: Action)
    requires Conserved(s) && Enabled(s, a)
    ensures Conserved(Next(s, a))
  {
    if a.Get? || a.Check? || a.Finish? || a.Put? {
      BusyUpdate(s.workers, a.w, Next(s, a).workers[a.w]);
    }
  }

  ghost predicate Census(s: State)
  {
    forall id :: Places(s, id) == Expected(s, id)
  }

  lemma {:induction false} InQueueSnoc(a: seq<Job>, j: Job, id: int)
    ensures InQueue(a + [j], id) == InQueue(a, id) + (if j.id == id then 1 else 0)
  {
    if a != [] {
      InQueueSnoc(a[1..], j, id);
      assert (a + [j])[1..] == a[1..] + [j];
    }
  }

  lemma {:induction false} InHandsUpdate(ws: seq<Worker>, w: nat, x: Worker, id: int)
    requires w < |ws|
    ensures InHands(ws[w := x], id) + InHand(ws[w], id) == InHands(ws, id) + InHand(x, id)
  {
    var us := ws[w := x];
    if w == 0 {
      assert us[1..] == ws[1..];
    } else {
      InHandsUpdate(ws[1..], w - 1, x, id);
      assert us[1..] == ws[1..][w - 1 := x];
    }
  }

  lemma PlacesMain(s: State, a: Action, id: int)
    requires Enabled(s, a) && (a.Dispatch? || a.PutBreak? || a.Collect? || a.Join? || a.Sigint?)
    requires Places(s, id) == Expected(s, id)
    requires s.poisoned > 0 ==> s.dispatched == |s.tasks|
    ensures Places(Next(s, a), id) == Expected(Next(s, a), id)
  {
    match a
    case Dispatch => InQueueSnoc(s.input, FreshJob(s.tasks, s.dispatched), id);
    case PutBreak => InQueueSnoc(s.input, BREAK_JOB, id);
    case Collect => InQueueSnoc(s.collected, s.output[0], id);
    case _ =>
  }

  lemma PlacesWork(s: State, a: Action, id: int)
    requires Enabled(s, a) && (a.Get? || a.Check? || a.Finish? || a.Put?)
    requires a.Check? ==> (s.workers[a.w].job.isBreak ==> s.workers[a.w].job.id == -1)
    requires Places(s, id) == Expected(s, id)
    ensures Places(Next(s, a), id) == Expected(Next(s, a), id)
  {
    InHandsUpdate(s.workers, a.w, Next(s, a).workers[a.w], id);
    if a.Put? {
      InQueueSnoc(s.output, s.workers[a.w].job, id);
    }
  }

  // ---------------------------------------------------------------- the invariant

  /** The job the main thread puts in the k-th place of the input queue. */
  ghost function Planned(tasks: seq<Task>, k: nat): Job
  {
    if k < |tasks| then FreshJob(tasks, k) else BREAK_JOB
  }

  /** How many jobs workers have taken from the input queue so far. */
  ghost function Taken(s: State): int
  {
    s.dispatched + s.poisoned - |s.input|
  }

  /** The result of a job that was not interrupted. */
  function Outcome(tasks: seq<Task>, id: nat): Job
    requires id < |tasks|
  {
    Job(id, tasks[id], false, if tasks[id].isSkip then 0 else tasks[id].exitCode)
  }

  function Interrupted(tasks: seq<Task>, id: nat): Job
    requires id < |tasks|
  {
    FreshJob(tasks, id).(isBreak := true)
  }

  /** A job that is finished with: run or skipped, or given back because of an interrupt. */
  ghost predicate Settled(s: State, j: Job)
  {
    0 <= j.id < |s.tasks|
    && (j == Outcome(s.tasks, j.id) || (s.threadExit && j == Interrupted(s.tasks, j.id)))
  }

  /** The main thread goes through its four loops in order. */
  ghost predicate Counters(s: State)
  {
    && s.dispatched <= |s.tasks|
    && s.poisoned <= |s.workers|
    && (s.poisoned > 0 ==> s.dispatched == |s.tasks|)
    && |s.collected| <= |s.tasks|
    && s.joined <= |s.workers|
    && (s.workers == [] ==> s.output == [] && s.collected == [])
  }

  /** The input queue holds the rest of the plan, in order. */
  ghost predicate Queued(s: State)
  {
    && 0 <= Taken(s)
    && forall i :: 0 <= i < |s.input| ==> s.input[i] == Planned(s.tasks, Taken(s) + i)
  }

  ghost predicate Held(s: State, w: Worker)
  {
    match w
    case Idle => true
    case Got(j) => (0 <= j.id < |s.tasks| && j == FreshJob(s.tasks, j.id)) || (j == BREAK_JOB && Taken(s) > |s.tasks|)
    case Running(j) => 0 <= j.id < |s.tasks| && j == FreshJob(s.tasks, j.id) && !j.task.isSkip
    case Holding(j) => Settled(s, j)
    case Exited => Taken(s) > |s.tasks|
  }

  ghost predicate Shape(s: State)
  {
    && Counters(s)
    && Queued(s)
    && (forall w :: 0 <= w < |s.workers| ==> Held(s, s.workers[w]))
    && (forall w :: 0 <= w < s.joined ==> s.workers[w].Exited?)
    && (forall k :: 0 <= k < |s.output| ==> Settled(s, s.output[k]))
    && (forall k :: 0 <= k < |s.collected| ==> Settled(s, s.collected[k]))
  }

  ghost predicate Inv(s: State)
  {
    Shape(s) && Conserved(s) && Census(s)
  }

  lemma {:induction false} InHandsOfIdle(ws: seq<Worker>, id: int)
    requires forall w :: 0 <= w < |ws| ==> ws[w].Idle?
    ensures InHands(ws, id) == 0 && Busy(ws) == 0
  {
    if ws != [] { InHandsOfIdle(ws[1..], id); }
  }

  lemma InitialInv(tasks: seq<Task>, processors: nat)
    ensures Inv(Initial(tasks, processors))
  {
    var s := Initial(tasks, processors);
    InHandsOfIdle(s.workers, 0);
    forall id ensures Places(s, id) == Expected(s, id) {
      InHandsOfIdle(s.workers, id);
    }
  }

  lemma ShapeSend(s: State, a: Action)
    requires Shape(s) && Enabled(s, a) && (a.Dispatch? || a.PutBreak?)
    ensures Shape(Next(s, a))
  {
    var t := Next(s, a);
    assert Taken(t) == Taken(s);
    forall w | 0 <= w < |t.workers| ensures Held(t, t.workers[w]) {
      assert Held(s, s.workers[w]);
    }
  }

  lemma ShapeCollect(s: State, a: Action)
    requires Shape(s) && Enabled(s, a) && (a.Collect? || a.Join? || a.Sigint?)
    ensures Shape(Next(s, a))
  {
    var t := Next(s, a);
    forall w | 0 <= w < |t.workers| ensures Held(t, t.workers[w]) {
      assert Held(s, s.workers[w]);
    }
  }

  lemma ShapeGet(s: State, w: nat)
    requires Shape(s) && Enabled(s, Get(w))
    ensures Shape(Next(s, Get(w)))
  {
    var t := Next(s, Get(w));
    assert Taken(t) == Taken(s) + 1;
    assert s.input[0] == Planned(s.tasks, Taken(s) + 0);
    forall i | 0 <= i < |t.input| ensures t.input[i] == Planned(t.tasks, Taken(t) + i) {
      assert t.input[i] == s.input[i + 1];
    }
    forall v | 0 <= v < |t.workers| ensures Held(t, t.workers[v]) {
      assert Held(s, s.workers[v]);
    }
  }

  lemma ShapeCheck(s: State, w: nat)
    requires Shape(s) && Enabled(s, Check(w))
    ensures Shape(Next(s, Check(w)))
  {
    assert Held(s, s.workers[w]);
    var t := Next(s, Check(w));
    assert Taken(t) == Taken(s);
    forall v | 0 <= v < |t.workers| ensures Held(t, t.workers[v]) {
      assert Held(s, s.workers[v]);
    }
  }

  lemma ShapeFinish(s: State, w: nat)
    requires Shape(s) && Enabled(s, Finish(w))
    ensures Shape(Next(s, Finish(w)))
  {
    assert Held(s, s.workers[w]);
    var t := Next(s, Finish(w));
    assert Taken(t) == Taken(s);
    forall v | 0 <= v < |t.workers| ensures Held(t, t.workers[v]) {
      assert Held(s, s.workers[v]);
    }
  }

  lemma ShapePut(s: State, w: nat)
    requires Shape(s) && Enabled(s, Put(w))
    ensures Shape(Next(s, Put(w)))
  {
    assert Held(s, s.workers[w]);
    var t := Next(s, Put(w));
    assert Taken(t) == Taken(s);
    forall v | 0 <= v < |t.workers| ensures Held(t, t.workers[v]) {
      assert Held(s, s.workers[v]);
    }
  }

  /** Every action keeps the invariant. */
  lemma InvStep(s: State, a: Action)
    requires Inv(s) && Enabled(s, a)
    ensures Inv(Next(s, a))
  {
    ConservedStep(s, a);
    var main := a.Dispatch? || a.PutBreak? || a.Collect? || a.Join? || a.Sigint?;
    if a.Dispatch? || a.PutBreak? {
      ShapeSend(s, a);
    } else if main {
      ShapeCollect(s, a);
    } else if a.Get? {
      ShapeGet(s, a.w);
    } else {
      assert Held(s, s.workers[a.w]);
      if a.Check? { ShapeCheck(s, a.w); } else if a.Finish? { ShapeFinish(s, a.w); } else { ShapePut(s, a.w); }
    }
    forall id ensures Places(Next(s, a), id) == Expected(Next(s, a), id) {
      assert Places(s, id) == Expected(s, id);
      if main { PlacesMain(s, a, id); } else { PlacesWork(s, a, id); }
    }
  }
}
