/** `run_tests` and the worker threads as the object they share: queues, interrupt flag, counters and
    name lists, changed in place one atomic action at a time. Every method is tied to the action of
    the state machine it performs. */
module TestRunner {
  import opened WorkerPool
  import opened PoolReport
  import PoolRuns
  import Sorting

  /** The local variables of the collection loop: how many results came, counters and name lists. */
  datatype Tally = Tally(
    received: nat, passed: nat, skipped: nat, failed: nat, crashed: nat, valgrind: nat,
    skippedNames: seq<string>, failedNames: seq<string>, crashedNames: seq<string>, valgrindNames: seq<string>)

  ghost function TallyOf(jobs: seq<Job>): Tally
  {
    Tally(|jobs|, |Select(jobs, PASS)|, |Select(jobs, SKIP)|, |Select(jobs, FAIL)|, |Select(jobs, CRASH)|,
          |Select(jobs, VALGR)|,
          Select(jobs, SKIP), Select(jobs, FAIL), Select(jobs, CRASH), Select(jobs, VALGR))
  }

  /** One turn of the collection loop: break jobs are dropped, the others are counted and listed. */
  method Record(tally: Tally, job: Job, ghost collected: seq<Job>) returns (t: Tally)
    requires tally == TallyOf(collected)
    ensures t == TallyOf(collected + [job])
  {
    assert (collected + [job])[..|collected|] == collected;
    t := tally.(received := tally.received + 1);
    if job.isBreak {
      return;
    }
    if job.task.isSkip {
      t := t.(skipped := t.skipped + 1,
              skippedNames := t.skippedNames + [job.task.displayName + " (" + job.task.skipReason + ")"]);
    } else if job.returnCode == 0 {
      t := t.(passed := t.passed + 1);
    } else if job.returnCode == 1 {
      t := t.(failed := t.failed + 1, failedNames := t.failedNames + [job.task.displayName]);
    } else if job.returnCode == 2 {
      t := t.(valgrind := t.valgrind + 1, valgrindNames := t.valgrindNames + [job.task.displayName]);
    } else {
      t := t.(crashed := t.crashed + 1, crashedNames := t.crashedNames + [job.task.displayName]);
    }
  }

  class Runner {
    const tasks: seq<Task>
    var dispatched: nat
    var poisoned: nat
    var joined: nat
    var inputQueue: seq<Job>
    var outputQueue: seq<Job>
    var workers: seq<Worker>
    var threadExit: bool

    var tally: Tally

    /** The results received so far, in order; the program keeps only the counters and names. */
    ghost var collected: seq<Job>

    ghost function Abs(): State
      reads this
    {
      State(tasks, dispatched, poisoned, joined, inputQueue, workers, outputQueue, collected, threadExit)
    }

    /** The counters and lists are those of the results received so far. */
    ghost predicate Tallied()
      reads this
    {
      tally == TallyOf(collected)
    }

    /** Whether the thread concerned is not blocked. */
    predicate Ready(a: Action)
      requires Tallied()
      reads this
      ensures Ready(a) == Enabled(Abs(), a)
    {
      var sent := dispatched == |tasks| && poisoned == |workers|;
      match a
      case Dispatch => dispatched < |tasks|
      case PutBreak => dispatched == |tasks| && poisoned < |workers|
      case Collect => sent && tally.received < |tasks| && outputQueue != []
      case Join => sent && tally.received == |tasks| && joined < |workers| && workers[joined].Exited?
      case Get(w) => w < |workers| && workers[w].Idle? && inputQueue != []
      case Check(w) => w < |workers| && workers[w].Got?
      case Finish(w) => w < |workers| && workers[w].Running?
      case Put(w) => w < |workers| && workers[w].Holding?
      case Sigint => !threadExit
    }

    constructor (tasks: seq<Task>, processors: nat)
      ensures Tallied()
      ensures this.tasks == tasks && Abs() == Initial(tasks, processors)
    {
      this.tasks := tasks;
      dispatched, poisoned, joined := 0, 0, 0;
      inputQueue, outputQueue := [], [];
      workers := seq(processors, _ => Idle);
      threadExit := false;
      tally := Tally(0, 0, 0, 0, 0, 0, [], [], [], []);
      collected := [];
    }

    method DispatchJob()
      requires Tallied() && Enabled(Abs(), Dispatch)
      modifies this
      ensures Tallied() && Abs() == Next(old(Abs()), Dispatch)
    {
      inputQueue := inputQueue + [Job(dispatched, tasks[dispatched], false, 0)];
      dispatched := dispatched + 1;
    }

    method PutBreakJob()
      requires Tallied() && Enabled(Abs(), PutBreak)
      modifies this
      ensures Tallied() && Abs() == Next(old(Abs()), PutBreak)
    {
      inputQueue := inputQueue + [BREAK_JOB];
      poisoned := poisoned + 1;
    }

    /** One turn of the collection loop. */
    method CollectResult()
      requires Tallied() && Enabled(Abs(), Collect)
      modifies this
      ensures Tallied() && Abs() == Next(old(Abs()), Collect)
    {
      var job := outputQueue[0];
      outputQueue := outputQueue[1..];
      tally := Record(tally, job, collected);
      collected := collected + [job];
    }

    method JoinWorker()
      requires Tallied() && Enabled(Abs(), Join)
      modifies this
      ensures Tallied() && Abs() == Next(old(Abs()), Join)
    {
      joined := joined + 1;
    }

    method SigintHook()
      requires Tallied() && Enabled(Abs(), Sigint)
      modifies this
      ensures Tallied() && Abs() == Next(old(Abs()), Sigint)
    {
      threadExit := true;
    }

    /** A worker's next move in its loop: take a job, look at it, finish running it, or report it. */
    method WorkerStep(ghost a: Action, w: nat)
      requires Tallied() && Enabled(Abs(), a)
      requires a == Get(w) || a == Check(w) || a == Finish(w) || a == Put(w)
      modifies this
      ensures Tallied() && Abs() == Next(old(Abs()), a)
    {
      match workers[w]
      case Idle =>
        var job := inputQueue[0];
        inputQueue := inputQueue[1..];
        workers := workers[w := Got(job)];
      case Got(job) =>
        if job.isBreak {
          workers := workers[w := Exited];
        } else if threadExit {
          workers := workers[w := Holding(job.(isBreak := true))];
        } else if job.task.isSkip {
          workers := workers[w := Holding(job)];
        } else {
          workers := workers[w := Running(job)];
        }
      case Running(job) =>
        workers := workers[w := Holding(job.(returnCode := job.task.exitCode))];
      case Holding(job) =>
        outputQueue := outputQueue + [job];
        workers := workers[w := Idle];
    }

    /** The summary of the results received so far, and the exit code. */
    method Report() returns (summary: Summary, exitCode: int)
      requires Tallied()
      ensures summary == Summarize(collected) && exitCode == Verdict(summary, |tasks|)
    {
      summary := Summary(tally.passed, tally.skipped, tally.failed, tally.crashed, tally.valgrind,
                         Sorting.Sort(tally.skippedNames), Sorting.Sort(tally.failedNames),
                         Sorting.Sort(tally.crashedNames), Sorting.Sort(tally.valgrindNames));
      exitCode := if tally.passed + tally.skipped == |tasks| then 0 else 1;
    }

    method Step(a: Action)
      requires Tallied() && Enabled(Abs(), a)
      modifies this
      ensures Tallied() && Abs() == Next(old(Abs()), a)
    {
      match a
      case Dispatch => DispatchJob();
      case PutBreak => PutBreakJob();
      case Collect => CollectResult();
      case Join => JoinWorker();
      case Sigint => SigintHook();
      case _ => WorkerStep(a, a.w);
    }
  }

  /** Every action a pool of `processors` workers can ever take. */
  function Actions(processors: nat): set<Action>
  {
    {Dispatch, PutBreak, Collect, Join, Sigint}
    + (set w | 0 <= w < processors :: Get(w)) + (set w | 0 <= w < processors :: Check(w))
    + (set w | 0 <= w < processors :: Finish(w)) + (set w | 0 <= w < processors :: Put(w))
  }

  /** A run that is not over can be continued, and only finitely often. */
  lemma NotOver(tasks: seq<Task>, processors: nat, schedule: seq<Action>)
    requires Legal(Initial(tasks, processors), schedule)
    requires processors > 0 || tasks == []
    ensures var s := Run(Initial(tasks, processors), schedule);
            && PoolRuns.Potential(s) >= 0 && s.tasks == tasks && |s.workers| == processors
            && (Done(s) || exists a :: a in Actions(processors) && Enabled(s, a))
  {
    InitialInv(tasks, processors);
    PoolRuns.RunInv(Initial(tasks, processors), schedule);
    var s := Run(Initial(tasks, processors), schedule);
    hide Run, Inv;
    PoolRuns.PotentialNonNegative(s);
    if CanProceed(s) {
      var a :| a != Sigint && Enabled(s, a);
      assert a in Actions(processors);
    } else {
      PoolRuns.StuckOnlyWithoutWorkers(s);
    }
  }

  /** An uninterrupted run gives the summary of running the tasks one by one, which says of each what it
      is; an interrupted one gives nothing that is not in it. In every run all tests are accounted for and
      the exit code is 0 exactly when none was interrupted and each was skipped or returned 0. */
  ghost predicate Accounted(tasks: seq<Task>, m: Summary, exitCode: int, interrupted: nat, sigint: bool)
  {
    && (!sigint ==> m == Summarize(Sequential(tasks)) && SaysOf(tasks, m) && interrupted == 0)
    && OnlyWithheld(m, Summarize(Sequential(tasks)))
    && m.passed + m.skipped + m.failed + m.crashed + m.valgrind + interrupted == |tasks|
    && (exitCode == 0 || exitCode == 1)
    && (exitCode == 0 <==> interrupted == 0 && AllAcceptable(tasks))
  }

  /** What the summary and the exit code of a finished run mean. */
  lemma OverMeans(tasks: seq<Task>, processors: nat, schedule: seq<Action>)
    requires Legal(Initial(tasks, processors), schedule)
    requires Done(Run(Initial(tasks, processors), schedule))
    ensures var s := Run(Initial(tasks, processors), schedule);
            var m := Summarize(s.collected);
            Accounted(tasks, m, Verdict(m, |tasks|), |Select(s.collected, INTERRUPTED)|, s.threadExit)
  {
    DeliveredAtEnd(tasks, processors, schedule);
    var s := Run(Initial(tasks, processors), schedule);
    VerdictMeaning(s);
    SummaryOnlyWithholds(tasks, processors, schedule);
    SequentialSays(tasks);
    hide OnlyWithheld, SaysOf;
    if !s.threadExit {
      ParallelEqualsSequential(tasks, processors, schedule);
      UninterruptedRunHasNoBreaks(s);
    }
  }

  lemma {:induction false} LegalSnoc(s: State, schedule: seq<Action>, a: Action)
    requires Legal(s, schedule) && Enabled(Run(s, schedule), a)
    ensures Legal(s, schedule + [a]) && Run(s, schedule + [a]) == Next(Run(s, schedule), a)
    decreases |schedule|
  {
    if schedule == [] {
      assert ([] + [a])[1..] == [];
    } else {
      LegalSnoc(Next(s, schedule[0]), schedule[1..], a);
      assert (schedule + [a])[1..] == schedule[1..] + [a];
    }
  }

  /** Lets the threads run under an arbitrary scheduler, which may raise the interrupt at any point,
      until the main thread has joined every worker. Without a worker and with something to do the
      program waits forever, so that case is excluded here. */
  method Drive(r: Runner, processors: nat) returns (ghost schedule: seq<Action>)
    requires r.Tallied() && r.Abs() == Initial(r.tasks, processors)
    requires processors > 0 || r.tasks == []
    modifies r
    ensures r.Tallied() && Done(r.Abs())
    ensures Legal(Initial(r.tasks, processors), schedule)
    ensures r.Abs() == Run(Initial(r.tasks, processors), schedule)
  {
    schedule := [];
    while !(r.dispatched == |r.tasks| && r.poisoned == |r.workers|
            && r.tally.received == |r.tasks| && r.joined == |r.workers|)
      invariant r.Tallied()
      invariant Legal(Initial(r.tasks, processors), schedule)
      invariant r.Abs() == Run(Initial(r.tasks, processors), schedule)
      decreases PoolRuns.Potential(r.Abs()) + 1
    {
      NotOver(r.tasks, processors, schedule);
      var a := Choose(r, processors);
      PoolRuns.PotentialStep(r.Abs(), a);
      LegalSnoc(Initial(r.tasks, processors), schedule, a);
      schedule := schedule + [a];
      r.Step(a);
    }
  }

  /** The scheduler: any thread that is not blocked, or the interrupt. */
  method Choose(r: Runner, processors: nat) returns (a: Action)
    requires r.Tallied() && exists a :: a in Actions(processors) && Enabled(r.Abs(), a)
    ensures Enabled(r.Abs(), a)
  {
    ghost var b :| b in Actions(processors) && Enabled(r.Abs(), b);
    assert r.Ready(b);
    a :| a in Actions(processors) && r.Ready(a);
    assert r.Ready(a);
  }

  /** The whole of `run_tests`; `interrupted` is the number of tests in none of the five counters. */
  method RunTests(tasks: seq<Task>, processors: nat)
    returns (summary: Summary, exitCode: int, interrupted: nat, sigint: bool)
    requires processors > 0 || tasks == []
    ensures Accounted(tasks, summary, exitCode, interrupted, sigint)
  {
    hide Run, Legal, Done, Initial, Summarize, Select, Verdict, AllAcceptable, Sequential, TallyOf, OnlyWithheld, SaysOf;
    var r := new Runner(tasks, processors);
    ghost var schedule := Drive(r, processors);
    OverMeans(tasks, processors, schedule);
    sigint := r.threadExit;
    summary, exitCode := r.Report();
    assert Accounted(tasks, summary, exitCode, |Select(r.collected, INTERRUPTED)|, sigint);
    interrupted := |tasks| - (summary.passed + summary.skipped + summary.failed + summary.crashed + summary.valgrind);
  }
}
