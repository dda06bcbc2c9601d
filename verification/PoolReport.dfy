/** The summary `test.py` prints and the verdict it returns, as functions of the collected results,
    and their independence from the interleaving. */
module PoolReport {
  import opened WorkerPool
  import PoolRuns
  import opened Sequences
  import Sorting

  datatype Status = INTERRUPTED | SKIP | PASS | FAIL | VALGR | CRASH

  function StatusOf(j: Job): Status
  {
    if j.isBreak then INTERRUPTED
    else if j.task.isSkip then SKIP
    else if j.returnCode == 0 then PASS
    else if j.returnCode == 1 then FAIL
    else if j.returnCode == 2 then VALGR
    else CRASH
  }

  /** The name a job is listed under; skipped jobs are listed with the reason. */
  function Label(j: Job): string
  {
    if j.task.isSkip then j.task.displayName + " (" + j.task.skipReason + ")" else j.task.displayName
  }

  /** The labels of the jobs with status `st`, in the order the jobs come. */
  function Select(jobs: seq<Job>, st: Status): seq<string>
  {
    if jobs == [] then []
    else Select(jobs[..|jobs| - 1], st) + (if StatusOf(jobs[|jobs| - 1]) == st then [Label(jobs[|jobs| - 1])] else [])
  }

  /** The five counters and the four sorted name lists of the final summary. */
  datatype Summary = Summary(
    passed: nat, skipped: nat, failed: nat, crashed: nat, valgrind: nat,
    skippedNames: seq<string>, failedNames: seq<string>, crashedNames: seq<string>, valgrindNames: seq<string>)

  function Summarize(jobs: seq<Job>): Summary
  {
    Summary(|Select(jobs, PASS)|, |Select(jobs, SKIP)|, |Select(jobs, FAIL)|, |Select(jobs, CRASH)|, |Select(jobs, VALGR)|,
            Sorting.Sort(Select(jobs, SKIP)), Sorting.Sort(Select(jobs, FAIL)),
            Sorting.Sort(Select(jobs, CRASH)), Sorting.Sort(Select(jobs, VALGR)))
  }

  /** The exit code: 0 when everything passed or was skipped. */
  function Verdict(m: Summary, totalTests: nat): int
  {
    if m.passed + m.skipped == totalTests then 0 else 1
  }

  /** Running the tasks one by one, in dispatch order. */
  function Sequential(tasks: seq<Task>): seq<Job>
  {
    seq(|tasks|, i requires 0 <= i < |tasks| => Outcome(tasks, i))
  }

  // ---------------------------------------------------------------- order does not matter

  lemma {:induction false} SelectConcat(a: seq<Job>, b: seq<Job>, st: Status)
    ensures Select(a + b, st) == Select(a, st) + Select(b, st)
    decreases |b|
  {
    if b == [] {
      assert a + b == a;
    } else {
      var n := |b| - 1;
      SelectConcat(a, b[..n], st);
      assert (a + b)[..|a + b| - 1] == a + b[..n];
      hide StatusOf, Label;
      Associative(Select(a, st), Select(b[..n], st), if StatusOf(b[n]) == st then [Label(b[n])] else []);
    }
  }

  lemma SelectCut(jobs: seq<Job>, k: nat, st: Status)
    requires k < |jobs|
    ensures multiset(Select(jobs, st)) == multiset(Select(Cut(jobs, k), st)) + multiset(Select([jobs[k]], st))
  {
    assert jobs == jobs[..k] + ([jobs[k]] + jobs[k + 1..]);
    SelectConcat(jobs[..k], [jobs[k]] + jobs[k + 1..], st);
    SelectConcat([jobs[k]], jobs[k + 1..], st);
    SelectConcat(jobs[..k], jobs[k + 1..], st);
  }

  lemma {:induction false} SelectForgetsOrder(a: seq<Job>, b: seq<Job>, st: Status)
    requires multiset(a) == multiset(b)
    ensures multiset(Select(a, st)) == multiset(Select(b, st))
    decreases |a|
  {
    if a == [] {
      assert |multiset(b)| == 0;
    } else {
      var k := CutSame(a, b);
      SelectForgetsOrder(Cut(a, 0), Cut(b, k), st);
      SelectCut(a, 0, st);
      SelectCut(b, k, st);
    }
  }

  lemma SameSize(a: seq<string>, b: seq<string>)
    requires multiset(a) == multiset(b)
    ensures |a| == |b|
  {
    assert |multiset(a)| == |a| && |multiset(b)| == |b|;
  }

  /** The summary depends on which results were collected, not on their order. */
  lemma SummaryForgetsOrder(a: seq<Job>, b: seq<Job>)
    requires multiset(a) == multiset(b)
    ensures Summarize(a) == Summarize(b)
  {
    forall st: Status
      ensures |Select(a, st)| == |Select(b, st)| && Sorting.Sort(Select(a, st)) == Sorting.Sort(Select(b, st))
    {
      SelectForgetsOrder(a, b, st);
      SameSize(Select(a, st), Select(b, st));
      Sorting.SortForgetsOrder(Select(a, st), Select(b, st));
    }
  }

  // ---------------------------------------------------------------- the collected results

  /** Every job of `q` is what running it would have given. */
  ghost predicate AllRun(tasks: seq<Task>, q: seq<Job>)
  {
    forall k :: 0 <= k < |q| ==> 0 <= q[k].id < |tasks| && q[k] == Outcome(tasks, q[k].id)
  }

  lemma {:induction false} CountByIdentity(tasks: seq<Task>, q: seq<Job>, j: Job)
    requires AllRun(tasks, q)
    ensures multiset(q)[j] == if 0 <= j.id < |tasks| && j == Outcome(tasks, j.id) then InQueue(q, j.id) else 0
  {
    if q != [] {
      CountByIdentity(tasks, q[1..], j);
      assert q == [q[0]] + q[1..];
    }
  }

  lemma {:induction false} InSequential(tasks: seq<Task>, n: nat, id: int)
    requires n <= |tasks|
    ensures InQueue(Sequential(tasks)[..n], id) == if 0 <= id < n then 1 else 0
    decreases n
  {
    if n > 0 {
      InSequential(tasks, n - 1, id);
      assert Sequential(tasks)[..n] == Sequential(tasks)[..n - 1] + [Outcome(tasks, n - 1)];
      InQueueSnoc(Sequential(tasks)[..n - 1], Outcome(tasks, n - 1), id);
    }
  }

  /** Results that hold each job once, all of them run, are a rearrangement of the sequential run. */
  lemma IsRearrangement(tasks: seq<Task>, q: seq<Job>)
    requires AllRun(tasks, q)
    requires forall id :: 0 <= id < |tasks| ==> InQueue(q, id) == 1
    ensures multiset(q) == multiset(Sequential(tasks))
  {
    forall j ensures multiset(q)[j] == multiset(Sequential(tasks))[j] {
      CountByIdentity(tasks, q, j);
      CountByIdentity(tasks, Sequential(tasks), j);
      InSequential(tasks, |tasks|, j.id);
      assert Sequential(tasks)[..|tasks|] == Sequential(tasks);
    }
  }

  lemma {:induction false} NobodyHoldsRealJobs(ws: seq<Worker>, id: int)
    requires 0 <= id && forall w :: 0 <= w < |ws| ==> ws[w].Exited?
    ensures InHands(ws, id) == 0
  {
    if ws != [] { NobodyHoldsRealJobs(ws[1..], id); }
  }

  /** Every job has come back exactly once, run, skipped or interrupted. */
  ghost predicate Delivered(s: State)
  {
    && |s.collected| == |s.tasks|
    && (forall k :: 0 <= k < |s.collected| ==> Settled(s, s.collected[k]))
    && (forall id :: 0 <= id < |s.tasks| ==> InQueue(s.collected, id) == 1)
  }

  lemma DoneDelivers(s: State)
    requires Inv(s) && Done(s)
    ensures Delivered(s)
  {
    PoolRuns.DoneIsFinal(s);
    forall id | 0 <= id < |s.tasks| ensures InQueue(s.collected, id) == 1 {
      assert Places(s, id) == Expected(s, id);
      NobodyHoldsRealJobs(s.workers, id);
    }
  }

  lemma DeliveredAtEnd(tasks: seq<Task>, processors: nat, schedule: seq<Action>)
    requires Legal(Initial(tasks, processors), schedule)
    requires Done(Run(Initial(tasks, processors), schedule))
    ensures Delivered(Run(Initial(tasks, processors), schedule))
    ensures Run(Initial(tasks, processors), schedule).tasks == tasks
  {
    InitialInv(tasks, processors);
    PoolRuns.RunInv(Initial(tasks, processors), schedule);
    DoneDelivers(Run(Initial(tasks, processors), schedule));
  }

  /** Whatever the number of workers and the interleaving, a run that was not interrupted reports the
      counters and the name lists of the sequential run. */
  lemma ParallelEqualsSequential(tasks: seq<Task>, processors: nat, schedule: seq<Action>)
    requires Legal(Initial(tasks, processors), schedule)
    requires var s := Run(Initial(tasks, processors), schedule);
             Done(s) && !s.threadExit
    ensures Summarize(Run(Initial(tasks, processors), schedule).collected) == Summarize(Sequential(tasks))
  {
    DeliveredAtEnd(tasks, processors, schedule);
    var s := Run(Initial(tasks, processors), schedule);
    IsRearrangement(tasks, s.collected);
    SummaryForgetsOrder(s.collected, Sequential(tasks));
  }

  // ---------------------------------------------------------------- interrupted runs

  /** The collected results with every interrupted job replaced by what running it would have given. */
  ghost function Completed(tasks: seq<Task>, q: seq<Job>): seq<Job>
    requires forall k :: 0 <= k < |q| ==> 0 <= q[k].id < |tasks|
  {
    seq(|q|, k requires 0 <= k < |q| => Outcome(tasks, q[k].id))
  }

  lemma {:induction false} CompletedSameJobs(tasks: seq<Task>, q: seq<Job>, id: int)
    requires forall k :: 0 <= k < |q| ==> 0 <= q[k].id < |tasks|
    ensures InQueue(Completed(tasks, q), id) == InQueue(q, id)
  {
    if q != [] {
      CompletedSameJobs(tasks, q[1..], id);
      assert Completed(tasks, q)[1..] == Completed(tasks, q[1..]);
    }
  }

  lemma CompletedStep(s: State, j: Job, st: Status)
    requires st != INTERRUPTED && Settled(s, j)
    ensures multiset(Select([j], st)) <= multiset(Select([Outcome(s.tasks, j.id)], st))
  {
    assert [j][..0] == [] && [Outcome(s.tasks, j.id)][..0] == [];
  }

  lemma ConcatContained(a: seq<string>, b: seq<string>, c: seq<string>, d: seq<string>)
    requires multiset(a) <= multiset(c) && multiset(b) <= multiset(d)
    ensures multiset(a + b) <= multiset(c + d)
  {
  }

  lemma {:induction false} CompletedSelectsMore(s: State, q: seq<Job>, st: Status)
    requires st != INTERRUPTED
    requires forall k :: 0 <= k < |q| ==> 0 <= q[k].id < |s.tasks| && Settled(s, q[k])
    ensures multiset(Select(q, st)) <= multiset(Select(Completed(s.tasks, q), st))
    decreases |q|
  {
    if q != [] {
      var n := |q| - 1;
      var p, j, o := q[..n], q[n], Outcome(s.tasks, q[n].id);
      var cp := Completed(s.tasks, p);
      assert q == p + [j] && Completed(s.tasks, q) == cp + [o];
      CompletedSelectsMore(s, p, st);
      CompletedStep(s, j, st);
      ConcatContained(Select(p, st), Select([j], st), Select(cp, st), Select([o], st));
      SelectConcat(cp, [o], st);
      SelectConcat(p, [j], st);
    }
  }

  /** An interrupted run reports under each status only labels the sequential run reports there. This
      rests on the exit code being a fixed property of a job: a signal that also reaches the processes of
      running jobs and changes how they end is outside the model. */
  lemma InterruptOnlyWithholds(tasks: seq<Task>, processors: nat, schedule: seq<Action>, st: Status)
    requires Legal(Initial(tasks, processors), schedule) && st != INTERRUPTED
    requires Done(Run(Initial(tasks, processors), schedule))
    ensures multiset(Select(Run(Initial(tasks, processors), schedule).collected, st))
         <= multiset(Select(Sequential(tasks), st))
  {
    DeliveredAtEnd(tasks, processors, schedule);
    var s := Run(Initial(tasks, processors), schedule);
    var q := Completed(tasks, s.collected);
    forall id | 0 <= id < |tasks| ensures InQueue(q, id) == 1 {
      CompletedSameJobs(tasks, s.collected, id);
    }
    IsRearrangement(tasks, q);
    SelectForgetsOrder(q, Sequential(tasks), st);
    CompletedSelectsMore(s, s.collected, st);
  }

  /** Every counter is at most that of the full summary and every list is contained in its list. */
  ghost predicate OnlyWithheld(m: Summary, full: Summary)
  {
    && m.passed <= full.passed && m.skipped <= full.skipped && m.failed <= full.failed
    && m.crashed <= full.crashed && m.valgrind <= full.valgrind
    && multiset(m.skippedNames) <= multiset(full.skippedNames) && multiset(m.failedNames) <= multiset(full.failedNames)
    && multiset(m.crashedNames) <= multiset(full.crashedNames) && multiset(m.valgrindNames) <= multiset(full.valgrindNames)
  }

  lemma ContainedCount(a: seq<string>, b: seq<string>)
    requires multiset(a) <= multiset(b)
    ensures |a| <= |b|
  {
    assert multiset(b) == multiset(a) + (multiset(b) - multiset(a));
    assert |multiset(a)| == |a| && |multiset(b)| == |b|;
  }

  lemma StatusOnlyWithheld(tasks: seq<Task>, processors: nat, schedule: seq<Action>, st: Status)
    requires Legal(Initial(tasks, processors), schedule) && st != INTERRUPTED
    requires Done(Run(Initial(tasks, processors), schedule))
    ensures var got, full := Select(Run(Initial(tasks, processors), schedule).collected, st), Select(Sequential(tasks), st);
            |got| <= |full| && multiset(Sorting.Sort(got)) <= multiset(Sorting.Sort(full))
  {
    InterruptOnlyWithholds(tasks, processors, schedule, st);
    hide Run, Initial, Select, Sequential, Legal, Done;
    ContainedCount(Select(Run(Initial(tasks, processors), schedule).collected, st), Select(Sequential(tasks), st));
  }

  /** The same for the summary as it is printed. */
  lemma SummaryOnlyWithholds(tasks: seq<Task>, processors: nat, schedule: seq<Action>)
    requires Legal(Initial(tasks, processors), schedule)
    requires Done(Run(Initial(tasks, processors), schedule))
    ensures OnlyWithheld(Summarize(Run(Initial(tasks, processors), schedule).collected), Summarize(Sequential(tasks)))
  {
    hide Run, Initial, Select, Sequential, Legal, Done;
    StatusOnlyWithheld(tasks, processors, schedule, PASS);
    StatusOnlyWithheld(tasks, processors, schedule, SKIP);
    StatusOnlyWithheld(tasks, processors, schedule, FAIL);
    StatusOnlyWithheld(tasks, processors, schedule, CRASH);
    StatusOnlyWithheld(tasks, processors, schedule, VALGR);
  }

  // ---------------------------------------------------------------- the summary in terms of the tests

  /** The summary counts and lists the tests by what they are: a skipped test under "skipped" with its
      reason, any other by its exit code, 0 for passed, 1 for failed, 2 for valgrind errors and
      everything else for crashed. Each list holds every name as often as there are such tests. */
  ghost predicate SaysOf(tasks: seq<Task>, m: Summary)
  {
    && m.passed == |set i | 0 <= i < |tasks| && !tasks[i].isSkip && tasks[i].exitCode == 0|
    && m.skipped == |set i | 0 <= i < |tasks| && tasks[i].isSkip|
    && m.failed == |set i | 0 <= i < |tasks| && !tasks[i].isSkip && tasks[i].exitCode == 1|
    && m.valgrind == |set i | 0 <= i < |tasks| && !tasks[i].isSkip && tasks[i].exitCode == 2|
    && m.crashed == |set i | 0 <= i < |tasks| && !tasks[i].isSkip && tasks[i].exitCode !in {0, 1, 2}|
    && Sorting.Sorted(m.skippedNames) && Sorting.Sorted(m.failedNames)
    && Sorting.Sorted(m.crashedNames) && Sorting.Sorted(m.valgrindNames)
    && forall name: string :: Lists(tasks, m, name)
  }

  ghost predicate Lists(tasks: seq<Task>, m: Summary, name: string)
  {
    && multiset(m.skippedNames)[name]
       == |set i | 0 <= i < |tasks| && tasks[i].isSkip
                   && tasks[i].displayName + " (" + tasks[i].skipReason + ")" == name|
    && multiset(m.failedNames)[name]
       == |set i | 0 <= i < |tasks| && !tasks[i].isSkip && tasks[i].exitCode == 1 && tasks[i].displayName == name|
    && multiset(m.valgrindNames)[name]
       == |set i | 0 <= i < |tasks| && !tasks[i].isSkip && tasks[i].exitCode == 2 && tasks[i].displayName == name|
    && multiset(m.crashedNames)[name]
       == |set i | 0 <= i < |tasks| && !tasks[i].isSkip && tasks[i].exitCode !in {0, 1, 2}
                   && tasks[i].displayName == name|
  }

  /** The positions of the jobs with a status, and of those among them with a label. */
  ghost function Having(jobs: seq<Job>, st: Status): set<int>
  {
    set i | 0 <= i < |jobs| && StatusOf(jobs[i]) == st
  }

  ghost function Named(jobs: seq<Job>, st: Status, name: string): set<int>
  {
    set i | 0 <= i < |jobs| && StatusOf(jobs[i]) == st && Label(jobs[i]) == name
  }

  lemma HavingNext(jobs: seq<Job>, st: Status, name: string)
    requires jobs != []
    ensures var n := |jobs| - 1;
            && Having(jobs, st) == Having(jobs[..n], st) + (if StatusOf(jobs[n]) == st then {n} else {})
            && Named(jobs, st, name)
               == Named(jobs[..n], st, name) + (if StatusOf(jobs[n]) == st && Label(jobs[n]) == name then {n} else {})
  {
    hide StatusOf, Label;
    var n := |jobs| - 1;
    assert forall i :: 0 <= i < n ==> jobs[..n][i] == jobs[i];
  }

  lemma {:induction false} SelectCounts(jobs: seq<Job>, st: Status, name: string)
    ensures |Select(jobs, st)| == |Having(jobs, st)|
    ensures multiset(Select(jobs, st))[name] == |Named(jobs, st, name)|
  {
    if jobs != [] {
      var n := |jobs| - 1;
      SelectCounts(jobs[..n], st, name);
      HavingNext(jobs, st, name);
      assert n !in Having(jobs[..n], st) && n !in Named(jobs[..n], st, name);
      hide StatusOf, Label;
    }
  }

  lemma SequentialSets(tasks: seq<Task>)
    ensures var jobs := Sequential(tasks);
            && Having(jobs, PASS) == (set i | 0 <= i < |tasks| && !tasks[i].isSkip && tasks[i].exitCode == 0)
            && Having(jobs, SKIP) == (set i | 0 <= i < |tasks| && tasks[i].isSkip)
            && Having(jobs, FAIL) == (set i | 0 <= i < |tasks| && !tasks[i].isSkip && tasks[i].exitCode == 1)
            && Having(jobs, VALGR) == (set i | 0 <= i < |tasks| && !tasks[i].isSkip && tasks[i].exitCode == 2)
            && Having(jobs, CRASH) == (set i | 0 <= i < |tasks| && !tasks[i].isSkip && tasks[i].exitCode !in {0, 1, 2})
  {
  }

  lemma SequentialNames(tasks: seq<Task>, name: string)
    ensures var jobs := Sequential(tasks);
            && Named(jobs, SKIP, name)
               == (set i | 0 <= i < |tasks| && tasks[i].isSkip
                           && tasks[i].displayName + " (" + tasks[i].skipReason + ")" == name)
            && Named(jobs, FAIL, name)
               == (set i | 0 <= i < |tasks| && !tasks[i].isSkip && tasks[i].exitCode == 1 && tasks[i].displayName == name)
            && Named(jobs, VALGR, name)
               == (set i | 0 <= i < |tasks| && !tasks[i].isSkip && tasks[i].exitCode == 2 && tasks[i].displayName == name)
            && Named(jobs, CRASH, name)
               == (set i | 0 <= i < |tasks| && !tasks[i].isSkip && tasks[i].exitCode !in {0, 1, 2}
                           && tasks[i].displayName == name)
  {
  }

  lemma SequentialLists(tasks: seq<Task>, name: string)
    ensures Lists(tasks, Summarize(Sequential(tasks)), name)
  {
    var jobs := Sequential(tasks);
    hide StatusOf, Label, Sequential, Select, Having, Named;
    SelectCounts(jobs, SKIP, name);
    SelectCounts(jobs, FAIL, name);
    SelectCounts(jobs, VALGR, name);
    SelectCounts(jobs, CRASH, name);
    SequentialNames(tasks, name);
  }

  /** Running the tests one by one, the summary says of each what it is. */
  lemma SequentialSays(tasks: seq<Task>)
    ensures SaysOf(tasks, Summarize(Sequential(tasks)))
  {
    var jobs := Sequential(tasks);
    hide StatusOf, Label, Sequential, Select, Having, Named, Lists;
    SequentialSets(tasks);
    SelectCounts(jobs, PASS, "");
    SelectCounts(jobs, SKIP, "");
    SelectCounts(jobs, FAIL, "");
    SelectCounts(jobs, VALGR, "");
    SelectCounts(jobs, CRASH, "");
    forall name: string ensures Lists(tasks, Summarize(jobs), name) {
      SequentialLists(tasks, name);
    }
  }

  // ---------------------------------------------------------------- the verdict

  /** Every collected job is counted under exactly one of the six statuses. */
  lemma {:induction false} StatusesPartition(jobs: seq<Job>)
    ensures |Select(jobs, PASS)| + |Select(jobs, SKIP)| + |Select(jobs, FAIL)| + |Select(jobs, CRASH)|
            + |Select(jobs, VALGR)| + |Select(jobs, INTERRUPTED)| == |jobs|
  {
    if jobs != [] { StatusesPartition(jobs[..|jobs| - 1]); }
  }

  lemma {:induction false} AllGood(jobs: seq<Job>)
    ensures |Select(jobs, PASS)| + |Select(jobs, SKIP)| <= |jobs|
    ensures |Select(jobs, PASS)| + |Select(jobs, SKIP)| == |jobs| <==> AllPassOrSkip(jobs)
  {
    if jobs != [] { AllGood(jobs[..|jobs| - 1]); }
  }

  lemma {:induction false} FindJob(q: seq<Job>, id: int) returns (k: nat)
    requires InQueue(q, id) >= 1
    ensures k < |q| && q[k].id == id
  {
    if q[0].id == id {
      k := 0;
    } else {
      k := FindJob(q[1..], id);
      k := k + 1;
    }
  }

  lemma {:induction false} NoneInterrupted(jobs: seq<Job>)
    ensures Select(jobs, INTERRUPTED) == [] <==> forall k :: 0 <= k < |jobs| ==> !jobs[k].isBreak
  {
    if jobs != [] {
      var n := |jobs| - 1;
      NoneInterrupted(jobs[..n]);
      assert forall k :: 0 <= k < n ==> jobs[..n][k] == jobs[k];
      if forall k :: 0 <= k < n ==> !jobs[..n][k].isBreak {
        assert forall k :: 0 <= k < n ==> !jobs[k].isBreak by {
          forall k | 0 <= k < n ensures !jobs[k].isBreak { assert !jobs[..n][k].isBreak; }
        }
      }
    }
  }

  ghost predicate AllAcceptable(tasks: seq<Task>)
  {
    forall id :: 0 <= id < |tasks| ==> tasks[id].isSkip || tasks[id].exitCode == 0
  }

  ghost predicate AllPassOrSkip(jobs: seq<Job>)
  {
    forall k :: 0 <= k < |jobs| ==> StatusOf(jobs[k]) == PASS || StatusOf(jobs[k]) == SKIP
  }

  lemma GoodResultsOfGoodTasks(s: State)
    requires Delivered(s)
    ensures AllPassOrSkip(s.collected) ==> AllAcceptable(s.tasks)
  {
    if AllPassOrSkip(s.collected) {
      forall id | 0 <= id < |s.tasks| ensures s.tasks[id].isSkip || s.tasks[id].exitCode == 0 {
        var k := FindJob(s.collected, id);
        assert Settled(s, s.collected[k]);
        assert StatusOf(s.collected[k]) == PASS || StatusOf(s.collected[k]) == SKIP;
      }
    }
  }

  lemma GoodTasksGiveGoodResults(s: State)
    requires Delivered(s) && AllAcceptable(s.tasks)
    requires forall k :: 0 <= k < |s.collected| ==> !s.collected[k].isBreak
    ensures AllPassOrSkip(s.collected)
  {
    forall k | 0 <= k < |s.collected| ensures StatusOf(s.collected[k]) == PASS || StatusOf(s.collected[k]) == SKIP {
      assert Settled(s, s.collected[k]);
    }
  }

  lemma GoodCounts(s: State)
    requires Delivered(s)
    ensures |Select(s.collected, PASS)| + |Select(s.collected, SKIP)| == |s.tasks|
       <==> Select(s.collected, INTERRUPTED) == [] && AllAcceptable(s.tasks)
  {
    StatusesPartition(s.collected);
    AllGood(s.collected);
    GoodResultsOfGoodTasks(s);
    if Select(s.collected, INTERRUPTED) == [] && AllAcceptable(s.tasks) {
      NoneInterrupted(s.collected);
      GoodTasksGiveGoodResults(s);
    }
  }

  /** At the end of every run the six statuses add up to the number of tests, and the exit code is 0
      exactly when no job was interrupted and each was skipped or returned 0. */
  lemma VerdictMeaning(s: State)
    requires Delivered(s)
    ensures var m := Summarize(s.collected);
            && m.passed + m.skipped + m.failed + m.crashed + m.valgrind + |Select(s.collected, INTERRUPTED)| == |s.tasks|
            && (Verdict(m, |s.tasks|) == 0 <==> Select(s.collected, INTERRUPTED) == [] && AllAcceptable(s.tasks))
  {
    GoodCounts(s);
    StatusesPartition(s.collected);
  }

  lemma UninterruptedRunHasNoBreaks(s: State)
    requires Delivered(s) && !s.threadExit
    ensures Select(s.collected, INTERRUPTED) == []
  {
    NoneInterrupted(s.collected);
  }
}
