/** `Bench::Run` and `Bench::Cb`: a run that keeps a constant population of pending events. The
    simulator is taken as a set of pending times from which some earliest one is executed next. */
module BenchScheduler {

  /** What the simulator saw when it executed a callback. */
  datatype Callback = Callback(time: nat, pendingBefore: nat)

  ghost predicate Earliest(e: nat, pending: multiset<nat>)
  {
    e in pending && forall x :: x in pending ==> e <= x
  }

  // ---------------------------------------------------------------- what is scheduled

  /** The delay the random stream gives at position `i`. */
  function Draw(delay: nat -> nat, i: nat): nat { delay(i) }

  lemma DrawnDelay(delay: nat -> nat, i: nat)
    ensures Draw(delay, i) == delay(i)
  {
  }

  ghost function Times(trace: seq<Callback>): multiset<nat>
  {
    if trace == [] then multiset{} else Times(trace[..|trace| - 1]) + multiset{trace[|trace| - 1].time}
  }

  /** The first `n` delays drawn from position `d` on: when the initial events happen. */
  ghost function Starts(delay: nat -> nat, d: nat, n: nat): (starts: multiset<nat>)
    ensures |starts| == n
  {
    if n == 0 then multiset{} else Starts(delay, d, n - 1) + multiset{Draw(delay, d + n - 1)}
  }

  /** When the events happen that the callbacks schedule, with the delays from `d` on. */
  ghost function FollowUps(trace: seq<Callback>, delay: nat -> nat, d: nat): multiset<nat>
  {
    if trace == [] then multiset{}
    else
      var n := |trace| - 1;
      FollowUps(trace[..n], delay, d) + multiset{trace[n].time + Draw(delay, d + n)}
  }

  /** The sum of `n` delays. */
  ghost function DelaySum(delay: nat -> nat, d: nat, n: nat): nat
  {
    if n == 0 then 0 else DelaySum(delay, d, n - 1) + Draw(delay, d + n - 1)
  }

  lemma {:induction false} ConstantDelay(delay: nat -> nat, c: nat, d: nat, n: nat)
    requires forall i :: delay(i) == c
    ensures DelaySum(delay, d, n) == n * c
  {
    if n > 0 {
      ConstantDelay(delay, c, d, n - 1);
      DrawnDelay(delay, d + n - 1);
      assert n * c == (n - 1) * c + c;
    }
  }

  /** Executed and pending events are those that were scheduled. */
  ghost predicate Conserved(trace: seq<Callback>, pending: multiset<nat>, delay: nat -> nat, d: nat, population: nat, count: nat)
  {
    && count <= |trace|
    && Balanced(Times(trace), pending, Starts(delay, d, population), FollowUps(trace[..count], delay, d + population))
  }

  ghost predicate Balanced(executed: multiset<nat>, pending: multiset<nat>, starts: multiset<nat>, more: multiset<nat>)
  {
    executed + pending == starts + more
  }

  /** With one event at a time every callback runs one delay after the one before. */
  ghost predicate Chained(trace: seq<Callback>, pending: multiset<nat>, delay: nat -> nat, d: nat, stopped: bool)
  {
    && (forall k :: 0 <= k < |trace| ==> trace[k].time == DelaySum(delay, d, k + 1))
    && (!stopped ==> pending == multiset{DelaySum(delay, d, |trace| + 1)})
  }

  lemma NoStarts(delay: nat -> nat, d: nat)
    ensures Starts(delay, d, 0) == multiset{}
  {
  }

  lemma StartsNext(delay: nat -> nat, d: nat, n: nat)
    ensures Starts(delay, d, n + 1) == Starts(delay, d, n) + multiset{Draw(delay, d + n)}
  {
    hide Draw;
  }

  lemma NothingExecuted(delay: nat -> nat, d: nat, population: nat)
    ensures Conserved([], Starts(delay, d, population), delay, d, population, 0)
    ensures population == 1 ==> Chained([], Starts(delay, d, population), delay, d, false)
  {
    if population == 1 {
      assert Starts(delay, d, 0) == multiset{};
      assert DelaySum(delay, d, 0) == 0;
    }
  }

  lemma TimesNext(trace: seq<Callback>, c: Callback)
    ensures Times(trace + [c]) == Times(trace) + multiset{c.time}
  {
    assert (trace + [c])[..|trace|] == trace;
  }

  /** The last callback only removes an event. */
  lemma ConservedLast(trace: seq<Callback>, pending: multiset<nat>, c: Callback, delay: nat -> nat, d: nat, population: nat, count: nat)
    requires Conserved(trace, pending, delay, d, population, count) && c.time in pending
    ensures Conserved(trace + [c], pending - multiset{c.time}, delay, d, population, count)
  {
    hide Times, Starts, FollowUps, Balanced, Draw;
    var e := d + population;
    TimesNext(trace, c);
    assert (trace + [c])[..count] == trace[..count];
    MoveOne(Times(trace), pending, Starts(delay, d, population), FollowUps(trace[..count], delay, e), c.time, 0);
  }

  /** Every other one schedules the next. */
  lemma ConservedNext(trace: seq<Callback>, pending: multiset<nat>, c: Callback, delay: nat -> nat, d: nat, population: nat)
    requires Conserved(trace, pending, delay, d, population, |trace|) && c.time in pending
    ensures Conserved(trace + [c], pending - multiset{c.time} + multiset{c.time + Draw(delay, d + population + |trace|)},
                      delay, d, population, |trace| + 1)
  {
    hide Times, Starts, FollowUps, Balanced, Draw;
    var n, e := |trace|, d + population;
    TimesNext(trace, c);
    FollowUpsNext(trace, c, delay, e);
    assert trace[..n] == trace && (trace + [c])[..n + 1] == trace + [c];
    MoveOne(Times(trace), pending, Starts(delay, d, population), FollowUps(trace, delay, e),
            c.time, c.time + Draw(delay, e + n));
  }

  lemma FollowUpsNext(trace: seq<Callback>, c: Callback, delay: nat -> nat, e: nat)
    ensures FollowUps(trace + [c], delay, e) == FollowUps(trace, delay, e) + multiset{c.time + Draw(delay, e + |trace|)}
  {
    hide Draw;
    assert (trace + [c])[..|trace|] == trace;
  }

  /** An event that moves from pending to executed, and another one scheduled. */
  lemma MoveOne(executed: multiset<nat>, pending: multiset<nat>, starts: multiset<nat>, more: multiset<nat>, t: nat, u: nat)
    requires Balanced(executed, pending, starts, more) && t in pending
    ensures Balanced(executed + multiset{t}, pending - multiset{t}, starts, more)
    ensures Balanced(executed + multiset{t}, pending - multiset{t} + multiset{u}, starts, more + multiset{u})
  {
    var rest := pending - multiset{t};
    assert (executed + multiset{t}) + rest == executed + pending;
    assert (executed + multiset{t}) + (rest + multiset{u}) == ((executed + multiset{t}) + rest) + multiset{u};
    assert starts + (more + multiset{u}) == (starts + more) + multiset{u};
  }

  lemma ChainedNext(trace: seq<Callback>, pending: multiset<nat>, c: Callback, delay: nat -> nat, d: nat)
    requires Chained(trace, pending, delay, d, false) && c.time in pending
    ensures Chained(trace + [c], pending - multiset{c.time}, delay, d, true)
    ensures Chained(trace + [c], pending - multiset{c.time} + multiset{c.time + Draw(delay, d + 1 + |trace|)}, delay, d, false)
  {
    var n := |trace|;
    assert c.time == DelaySum(delay, d, n + 1);
    assert DelaySum(delay, d, n + 2) == DelaySum(delay, d, n + 1) + Draw(delay, d + (n + 2) - 1);
  }

  class Bench {
    const population: nat
    const total: nat
    const delay: nat -> nat
    var count: nat
    var drawn: nat
    var now: nat
    var pending: multiset<nat>
    var stopped: bool
    /** The callbacks executed so far. */
    ghost var trace: seq<Callback>

    constructor (population: nat, total: nat, delay: nat -> nat)
      ensures this.population == population && this.total == total && this.delay == delay
    {
      this.population, this.total, this.delay := population, total, delay;
      count, drawn, now, pending, stopped, trace := 0, 0, 0, multiset{}, false, [];
    }

    /** No pending event lies in the past, and time never went back. */
    ghost predicate InTime()
      reads this
    {
      && (forall x :: x in pending ==> now <= x)
      && (forall i, j :: 0 <= i < j < |trace| ==> trace[i].time <= trace[j].time)
      && (trace != [] ==> trace[|trace| - 1].time == now)
    }

    method Schedule()
      requires InTime()
      modifies this`pending, this`drawn
      ensures InTime()
      ensures pending == old(pending) + multiset{now + Draw(delay, old(drawn))} && drawn == old(drawn) + 1
    {
      pending := pending + multiset{now + Draw(delay, drawn)};
      drawn := drawn + 1;
    }

    /** The event function. */
    method Cb()
      requires InTime()
      modifies this`pending, this`drawn, this`count, this`stopped
      ensures InTime()
      ensures old(count) >= total ==>
                stopped && count == old(count) && pending == old(pending) && drawn == old(drawn)
      ensures old(count) < total ==>
                && stopped == old(stopped) && count == old(count) + 1 && drawn == old(drawn) + 1
                && pending == old(pending) + multiset{now + Draw(delay, old(drawn))}
    {
      if count >= total {
        stopped := true;
        return;
      }
      Schedule();
      count := count + 1;
    }

    /** Executes some earliest event; below the total it schedules another one, one drawn delay ahead. */
    method Execute()
      requires InTime() && |pending| > 0
      modifies this
      ensures InTime() && Earliest(now, old(pending))
      ensures trace == old(trace) + [Callback(now, |old(pending)|)]
      ensures old(count) >= total ==>
                && stopped && count == old(count) && drawn == old(drawn)
                && pending == old(pending) - multiset{now}
      ensures old(count) < total ==>
                && stopped == old(stopped) && count == old(count) + 1 && drawn == old(drawn) + 1
                && pending == old(pending) - multiset{now} + multiset{now + Draw(delay, old(drawn))}
    {
      Take();
      hide InTime, Earliest;
      Cb();
    }

    /** Removes some earliest event, whose time it becomes. */
    method Take()
      requires InTime() && |pending| > 0
      modifies this`trace, this`pending, this`now
      ensures InTime() && Earliest(now, old(pending)) && pending == old(pending) - multiset{now}
      ensures trace == old(trace) + [Callback(now, |old(pending)|)]
    {
      var e := Pick(pending);
      trace := trace + [Callback(e, |pending|)];
      pending := pending - multiset{e};
      now := e;
    }

    /** The whole benchmark run. Every executed or still pending event is one of the first `population`
        delays, or lies one further delay after the callback that scheduled it. */
    method Run() returns (pop: nat, events: nat)
      modifies this
      ensures pop == population && events == count
      ensures InTime()
      ensures forall k :: 0 <= k < |trace| ==> trace[k].pendingBefore == population
      ensures population > 0 ==> count == total && |trace| == total + 1 && |pending| == population - 1
      ensures population == 0 ==> count == 0 && trace == [] && |pending| == 0
      ensures drawn == old(drawn) + population + count
      ensures Times(trace) + pending
           == Starts(delay, old(drawn), population) + FollowUps(trace[..count], delay, old(drawn) + population)
      ensures population == 1 ==> forall k :: 0 <= k < |trace| ==> trace[k].time == DelaySum(delay, old(drawn), k + 1)
    {
      ghost var d := drawn;
      Fill();
      while !stopped && |pending| > 0
        invariant Running(d)
        decreases !stopped, total - count
      {
        Advance(d);
      }
      pop, events := population, count;
    }

    /** The state of the run between two callbacks. */
    ghost predicate Running(d: nat)
      reads this
    {
      && InTime() && count <= total && |trace| >= count && drawn == d + population + count
      && (population == 0 ==> count == 0 && trace == [])
      && (forall k :: 0 <= k < |trace| ==> trace[k].pendingBefore == population)
      && (!stopped ==> |pending| == population && |trace| == count)
      && (stopped ==> population > 0 && |pending| == population - 1 && count == total && |trace| == total + 1)
      && Conserved(trace, pending, delay, d, population, count)
      && (population == 1 ==> Chained(trace, pending, delay, d, stopped))
    }

    /** Schedules the initial events. */
    method Fill()
      modifies this
      ensures Running(old(drawn)) && !stopped
    {
      hide Starts, Conserved, Chained;
      ghost var d := drawn;
      count, now, pending, stopped, trace := 0, 0, multiset{}, false, [];
      Populate();
      NothingExecuted(delay, d, population);
    }

    lemma NothingPending()
      requires pending == multiset{} && trace == []
      ensures InTime()
    {
    }

    method Populate()
      requires now == 0 && pending == multiset{} && trace == []
      modifies this`pending, this`drawn
      ensures InTime() && |pending| == population && drawn == old(drawn) + population
      ensures pending == Starts(delay, old(drawn), population)
    {
      hide InTime, Starts, Draw;
      ghost var d := drawn;
      NoStarts(delay, d);
      NothingPending();
      for i := 0 to population
        invariant InTime() && now == 0 && drawn == d + i && pending == Starts(delay, d, i)
      {
        StartsNext(delay, d, i);
        Schedule();
      }
    }

    /** One callback of the run. */
    method Advance(ghost d: nat)
      requires Running(d) && !stopped && |pending| > 0
      modifies this
      ensures Running(d) && (stopped || (count == old(count) + 1 && count <= total))
    {
      ghost var t, waiting, n := trace, pending, count;
      hide InTime, Conserved, Chained;
      Execute();
      if stopped {
        ConservedLast(t, waiting, Callback(now, |waiting|), delay, d, population, n);
      } else {
        ConservedNext(t, waiting, Callback(now, |waiting|), delay, d, population);
      }
      if population == 1 { ChainedNext(t, waiting, Callback(now, |waiting|), delay, d); }
    }
  }

  /** The scheduler's choice: any of the earliest pending events. */
  method Pick(pending: multiset<nat>) returns (e: nat)
    requires |pending| > 0
    ensures Earliest(e, pending)
  {
    var rest := pending;
    e :| e in rest;
    rest := rest - multiset{e};
    ghost var seen: multiset<nat> := multiset{e};
    while |rest| > 0
      invariant pending == seen + rest && Earliest(e, seen)
      decreases |rest|
    {
      var x :| x in rest;
      SeeOneMore(e, seen, rest, x);
      seen := seen + multiset{x};
      rest := rest - multiset{x};
      if x < e { e := x; }
    }
    assert pending == seen;
  }

  lemma SeeOneMore(e: nat, seen: multiset<nat>, rest: multiset<nat>, x: nat)
    requires Earliest(e, seen) && x in rest
    ensures seen + rest == (seen + multiset{x}) + (rest - multiset{x})
    ensures Earliest(if x < e then x else e, seen + multiset{x})
  {
  }
}
