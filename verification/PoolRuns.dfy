/** Whole runs of the worker pool: safety of every reachable state, the bound on the length of a
    run, and the exact condition under which a run cannot hang. */
module PoolRuns {
  import opened WorkerPool

  // ---------------------------------------------------------------- termination

  ghost function JobWeight(j: Job): nat { if j.isBreak then 2 else 5 }

  ghost function WorkerWeight(w: Worker): nat
  {
    match w
    case Idle => 0
    case Got(j) => if j.isBreak then 1 else 4
    case Running(_) => 3
    case Holding(_) => 2
    case Exited => 0
  }

  ghost function QueueWeight(q: seq<Job>): nat
  {
    if q == [] then 0 else JobWeight(q[0]) + QueueWeight(q[1..])
  }

  ghost function CrewWeight(ws: seq<Worker>): nat
  {
    if ws == [] then 0 else WorkerWeight(ws[0]) + CrewWeight(ws[1..])
  }

  /** An upper bound on the number of actions that can still happen. */
  ghost function Potential(s: State): int
  {
    6 * (|s.tasks| - s.dispatched) + 3 * (|s.workers| - s.poisoned) + (|s.workers| - s.joined)
    + QueueWeight(s.input) + CrewWeight(s.workers) + |s.output| + (if s.threadExit then 0 else 1)
  }

  lemma {:induction false} QueueWeightSnoc(q: seq<Job>, j: Job)
    ensures QueueWeight(q + [j]) == QueueWeight(q) + JobWeight(j)
  {
    if q != [] {
      QueueWeightSnoc(q[1..], j);
      assert (q + [j])[1..] == q[1..] + [j];
    }
  }

  lemma {:induction false} CrewWeightUpdate(ws: seq<Worker>, w: nat, x: Worker)
    requires w < |ws|
    ensures CrewWeight(ws[w := x]) + WorkerWeight(ws[w]) == CrewWeight(ws) + WorkerWeight(x)
  {
    var us := ws[w := x];
    if w == 0 {
      assert us[1..] == ws[1..];
    } else {
      CrewWeightUpdate(ws[1..], w - 1, x);
      assert us[1..] == ws[1..][w - 1 := x];
    }
  }

  /** Every action, the interrupt included, uses up some of the potential. */
  lemma PotentialStep(s: State, a: Action)
    requires Enabled(s, a)
    ensures Potential(Next(s, a)) < Potential(s)
  {
    match a
    case Dispatch => QueueWeightSnoc(s.input, FreshJob(s.tasks, s.dispatched));
    case PutBreak => QueueWeightSnoc(s.input, BREAK_JOB);
    case Collect =>
    case Join =>
    case Sigint =>
    case _ => PotentialWork(s, a);
  }

  lemma PotentialWork(s: State, a: Action)
    requires Enabled(s, a) && (a.Get? || a.Check? || a.Finish? || a.Put?)
    ensures Potential(Next(s, a)) < Potential(s)
  {
    var w, t := a.w, Next(s, a);
    CrewWeightUpdate(s.workers, w, t.workers[w]);
    hide CrewWeight;
    assert t.workers == s.workers[w := t.workers[w]];
  }

  lemma {:induction false} RunInv(s: State, schedule: seq<Action>)
    requires Inv(s) && Legal(s, schedule)
    ensures Inv(Run(s, schedule))
    ensures |schedule| + Potential(Run(s, schedule)) <= Potential(s)
    ensures Run(s, schedule).tasks == s.tasks && |Run(s, schedule).workers| == |s.workers|
    decreases |schedule|
  {
    hide Inv, Potential;
    if schedule != [] {
      assert Next(s, schedule[0]).tasks == s.tasks && |Next(s, schedule[0]).workers| == |s.workers|;
      InvStep(s, schedule[0]);
      PotentialStep(s, schedule[0]);
      RunInv(Next(s, schedule[0]), schedule[1..]);
    }
  }

  lemma {:induction false} IdleCrewWeightless(ws: seq<Worker>)
    requires forall w :: 0 <= w < |ws| ==> ws[w].Idle?
    ensures CrewWeight(ws) == 0
  {
    if ws != [] { IdleCrewWeightless(ws[1..]); }
  }

  /** No interleaving of n jobs on p workers takes more than 6n + 4p + 1 steps. */
  lemma RunsAreBounded(tasks: seq<Task>, processors: nat, schedule: seq<Action>)
    requires Legal(Initial(tasks, processors), schedule)
    ensures |schedule| <= 6 * |tasks| + 4 * processors + 1
  {
    InitialInv(tasks, processors);
    RunInv(Initial(tasks, processors), schedule);
    IdleCrewWeightless(Initial(tasks, processors).workers);
  }

  // ---------------------------------------------------------------- safety

  /** No worker runs a job that is to be skipped, or a break job. */
  ghost predicate RunsRealJobs(s: State)
  {
    forall w :: 0 <= w < |s.workers| && s.workers[w].Running? ==>
      !s.workers[w].job.task.isSkip && !s.workers[w].job.isBreak
  }

  lemma {:induction false} RunsRealJobsKept(s: State, schedule: seq<Action>)
    requires RunsRealJobs(s) && Legal(s, schedule)
    ensures RunsRealJobs(Run(s, schedule))
    decreases |schedule|
  {
    if schedule != [] {
      assert RunsRealJobs(Next(s, schedule[0]));
      hide Enabled, Next;
      RunsRealJobsKept(Next(s, schedule[0]), schedule[1..]);
    }
  }

  /** Whatever the interleaving, a test that is to be skipped is never launched. */
  lemma SkippedAreNeverRun(tasks: seq<Task>, processors: nat, schedule: seq<Action>)
    requires Legal(Initial(tasks, processors), schedule)
    ensures RunsRealJobs(Run(Initial(tasks, processors), schedule))
  {
    RunsRealJobsKept(Initial(tasks, processors), schedule);
  }

  lemma {:induction false} RealNotInBreakQueue(q: seq<Job>, id: int)
    requires forall k :: 0 <= k < |q| ==> q[k].id != id
    ensures InQueue(q, id) == 0
  {
    if q != [] { RealNotInBreakQueue(q[1..], id); }
  }

  /** In every reachable state, whatever the interleaving and whenever the interrupt comes, each
      dispatched job is in exactly one place, no other job exists, and no worker has returned while
      a real job waits in the input queue. */
  lemma ExactlyOnce(tasks: seq<Task>, processors: nat, schedule: seq<Action>)
    requires Legal(Initial(tasks, processors), schedule)
    ensures var s := Run(Initial(tasks, processors), schedule);
            && (forall id :: 0 <= id < s.dispatched ==> Places(s, id) == 1)
            && (forall id :: s.dispatched <= id ==> Places(s, id) == 0)
            && (forall w :: 0 <= w < |s.workers| && s.workers[w].Exited? ==>
                  forall id :: 0 <= id ==> InQueue(s.input, id) == 0)
  {
    InitialInv(tasks, processors);
    RunInv(Initial(tasks, processors), schedule);
    var s := Run(Initial(tasks, processors), schedule);
    forall id | 0 <= id ensures Places(s, id) == if id < s.dispatched then 1 else 0 {
      assert Places(s, id) == Expected(s, id);
    }
    forall w, id | 0 <= w < |s.workers| && s.workers[w].Exited? && 0 <= id ensures InQueue(s.input, id) == 0 {
      assert Held(s, s.workers[w]);
      RealNotInBreakQueue(s.input, id);
    }
  }

  /** Workers take jobs in dispatch order: what is left in the input queue is the tail of the plan. */
  lemma TakenInDispatchOrder(tasks: seq<Task>, processors: nat, schedule: seq<Action>, i: nat, k: nat)
    requires Legal(Initial(tasks, processors), schedule)
    requires var s := Run(Initial(tasks, processors), schedule);
             i < k < |s.input| && !s.input[k].isBreak
    ensures var s := Run(Initial(tasks, processors), schedule);
            !s.input[i].isBreak && s.input[k].id - s.input[i].id == k - i
  {
    InitialInv(tasks, processors);
    RunInv(Initial(tasks, processors), schedule);
  }

  /** A worker has started on the job, or has finished with it. */
  ghost predicate Begun(s: State, id: int)
  {
    || (exists w :: 0 <= w < |s.workers| && (s.workers[w].Running? || s.workers[w].Holding?) && s.workers[w].job.id == id)
    || (exists k :: 0 <= k < |s.output| && s.output[k].id == id)
    || (exists k :: 0 <= k < |s.collected| && s.collected[k].id == id)
  }

  /** Wherever job `id` is past the input queue, it is there as an interrupted job. */
  ghost predicate OnlyInterrupted(s: State, id: int)
  {
    && (forall w :: 0 <= w < |s.workers| && s.workers[w].Running? ==> s.workers[w].job.id != id)
    && (forall w :: 0 <= w < |s.workers| && s.workers[w].Holding? && s.workers[w].job.id == id ==> s.workers[w].job.isBreak)
    && (forall k :: 0 <= k < |s.output| && s.output[k].id == id ==> s.output[k].isBreak)
    && (forall k :: 0 <= k < |s.collected| && s.collected[k].id == id ==> s.collected[k].isBreak)
  }

  lemma {:induction false} StaysInterrupted(s: State, schedule: seq<Action>, id: int)
    requires s.threadExit && Legal(s, schedule) && OnlyInterrupted(s, id)
    ensures OnlyInterrupted(Run(s, schedule), id)
    decreases |schedule|
  {
    if schedule != [] {
      StaysInterrupted(Next(s, schedule[0]), schedule[1..], id);
    }
  }

  /** After the interrupt no worker starts another job: whatever was not begun by then comes back as an
      interrupted job, in every continuation of the run. */
  lemma InterruptIsPrompt(s: State, schedule: seq<Action>, id: int)
    requires s.threadExit && Legal(s, schedule) && !Begun(s, id)
    ensures var t := Run(s, schedule);
            && (forall w :: 0 <= w < |t.workers| && t.workers[w].Running? ==> t.workers[w].job.id != id)
            && (forall k :: 0 <= k < |t.collected| && t.collected[k].id == id ==> t.collected[k].isBreak)
  {
    StaysInterrupted(s, schedule, id);
  }

  // ---------------------------------------------------------------- deadlock freedom

  ghost predicate Waiting(ws: seq<Worker>)
  {
    forall w :: 0 <= w < |ws| ==> ws[w].Idle? || ws[w].Exited?
  }

  lemma {:induction false} IdleWorkerHasNoBreakJob(ws: seq<Worker>)
    requires Waiting(ws)
    ensures InHands(ws, -1) == Busy(ws) <= |ws|
    ensures Busy(ws) == |ws| <==> (forall w :: 0 <= w < |ws| ==> ws[w].Exited?)
  {
    if ws != [] {
      IdleWorkerHasNoBreakJob(ws[1..]);
      assert forall w :: 0 <= w < |ws[1..]| ==> ws[1..][w] == ws[w + 1];
      if Busy(ws) == |ws| {
        forall w | 0 <= w < |ws| ensures ws[w].Exited? {
          if w > 0 { assert ws[1..][w - 1].Exited?; }
        }
      }
    }
  }

  lemma StuckIsWaiting(s: State)
    requires Inv(s) && !CanProceed(s)
    ensures Dispatched(s) && Waiting(s.workers)
    ensures InHands(s.workers, -1) + InQueue(s.input, -1) == |s.workers|
  {
    assert !Enabled(s, Dispatch) && !Enabled(s, PutBreak);
    forall w | 0 <= w < |s.workers| ensures s.workers[w].Idle? || s.workers[w].Exited? {
      assert !Enabled(s, Check(w)) && !Enabled(s, Finish(w)) && !Enabled(s, Put(w));
    }
    RealNotInBreakQueue(s.output, -1);
    RealNotInBreakQueue(s.collected, -1);
    assert Places(s, -1) == Expected(s, -1);
  }

  lemma StuckHasAllExited(s: State)
    requires Inv(s) && !CanProceed(s)
    ensures Waiting(s.workers) && Busy(s.workers) == |s.workers|
    ensures s.workers != [] ==> s.input == []
  {
    StuckIsWaiting(s);
    IdleWorkerHasNoBreakJob(s.workers);
    forall w | 0 <= w < |s.workers| ensures s.workers[w].Exited? {
      assert !Enabled(s, Get(w));
    }
    if s.workers != [] {
      assert Held(s, s.workers[0]);
    }
  }

  /** A state in which the program cannot move is the end of the run, except with no workers and
      something to do. */
  lemma StuckOnlyWithoutWorkers(s: State)
    requires Inv(s) && !CanProceed(s)
    ensures Done(s) <==> s.workers != [] || s.tasks == []
  {
    StuckIsWaiting(s);
    StuckHasAllExited(s);
    IdleWorkerHasNoBreakJob(s.workers);
    if s.workers != [] {
      assert !Enabled(s, Collect);
      assert !Enabled(s, Join);
    }
  }

  /** Once done, the program has nothing left to do. */
  lemma DoneIsFinal(s: State)
    requires Inv(s) && Done(s)
    ensures !CanProceed(s)
    ensures s.input == [] && s.output == []
    ensures forall w :: 0 <= w < |s.workers| ==> s.workers[w].Exited?
  {
    assert forall w :: 0 <= w < s.joined ==> s.workers[w].Exited?;
    IdleWorkerHasNoBreakJob(s.workers);
  }

  /** Every run that can go no further, interrupted or not, ends with both queues empty, one result
      per job and all workers joined - exactly when there is a worker or there is nothing to do. */
  lemma MaximalRuns(tasks: seq<Task>, processors: nat, schedule: seq<Action>)
    requires Legal(Initial(tasks, processors), schedule)
    requires !CanProceed(Run(Initial(tasks, processors), schedule))
    ensures var s := Run(Initial(tasks, processors), schedule);
            && (Done(s) <==> processors > 0 || tasks == [])
            && (Done(s) ==> s.input == [] && s.output == [] && |s.collected| == |tasks|
                            && |s.workers| == processors
                            && forall w :: 0 <= w < processors ==> s.workers[w].Exited?)
  {
    InitialInv(tasks, processors);
    RunInv(Initial(tasks, processors), schedule);
    var s := Run(Initial(tasks, processors), schedule);
    StuckOnlyWithoutWorkers(s);
    if Done(s) { DoneIsFinal(s); }
  }

  /** From every state an uninterrupted or interrupted run can reach, the program can be driven to
      its end. */
  lemma {:induction false} CanAlwaysFinish(s: State) returns (schedule: seq<Action>)
    requires Inv(s) && (s.workers != [] || s.tasks == [])
    ensures Legal(s, schedule) && Done(Run(s, schedule))
    ensures Sigint !in schedule
    decreases Potential(s) + 1
  {
    if CanProceed(s) {
      var a :| a != Sigint && Enabled(s, a);
      InvStep(s, a);
      PotentialStep(s, a);
      PotentialNonNegative(Next(s, a));
      var rest := CanAlwaysFinish(Next(s, a));
      schedule := [a] + rest;
      assert schedule[1..] == rest;
    } else {
      StuckOnlyWithoutWorkers(s);
      schedule := [];
    }
  }

  lemma PotentialNonNegative(s: State)
    requires Inv(s)
    ensures Potential(s) >= 0
  {
  }
}
