/** The restartable `Sender` application of `wifi-example-apps.cc`: start, stop and send events over
    every order in which they can come. */
module WifiSender {

  datatype EventId = NoEvent | Uid(uid: nat)

  /** What an observer sees of the application. */
  datatype Op = Started | Stopped | Sent

  /** Whether the latest start came after the latest stop. */
  ghost function Active(log: seq<Op>): bool
  {
    if log == [] then false
    else
      match log[|log| - 1]
      case Started => true
      case Stopped => false
      case Sent => Active(log[..|log| - 1])
  }

  /** The packets sent since the latest start. */
  ghost function SentSinceStart(log: seq<Op>): nat
  {
    if log == [] then 0
    else
      match log[|log| - 1]
      case Started => 0
      case Stopped => SentSinceStart(log[..|log| - 1])
      case Sent => SentSinceStart(log[..|log| - 1]) + 1
  }

  /** Packets are sent only between a start and the next stop, and at most `limit` after each start. */
  ghost predicate Lawful(log: seq<Op>, limit: nat)
  {
    forall k :: 0 <= k < |log| && log[k] == Sent ==> Active(log[..k]) && SentSinceStart(log[..k]) < limit
  }

  lemma LogNext(log: seq<Op>, op: Op, limit: nat)
    requires Lawful(log, limit) && (op == Sent ==> Active(log) && SentSinceStart(log) < limit)
    ensures Lawful(log + [op], limit)
    ensures Active(log + [op]) == (match op case Started => true case Stopped => false case Sent => Active(log))
    ensures SentSinceStart(log + [op])
         == (match op case Started => 0 case Stopped => SentSinceStart(log) case Sent => SentSinceStart(log) + 1)
  {
    var next := log + [op];
    assert next[..|log|] == log;
    forall k | 0 <= k < |next| && next[k] == Sent ensures Active(next[..k]) && SentSinceStart(next[..k]) < limit {
      if k < |log| {
        assert next[..k] == log[..k];
      }
    }
  }

  class Sender {
    const numPkts: nat
    var count: nat
    var sendEvent: EventId
    var hasSocket: bool
    /** The simulator's events for this application, and the next fresh event id. */
    var pending: set<nat>
    var nextUid: nat
    var log: seq<Op>

    /** The number of packets after a start; the attribute checker keeps `numPkts` at least 1. */
    function Limit(): nat { if numPkts == 0 then 1 else numPkts }

    ghost predicate Valid()
      reads this
    {
      && (forall e :: e in pending ==> sendEvent == Uid(e) && e < nextUid)
      && (pending != {} ==> Active(log) && hasSocket)
      && (Started in log ==> hasSocket && count == SentSinceStart(log) && count <= Limit())
      && (Active(log) ==> Started in log)
      && (Active(log) ==> (pending != {} <==> count < Limit()))
      && Lawful(log, Limit())
    }

    /** The counter is not initialised before the first start. */
    constructor (numPkts: nat, garbage: nat)
      ensures Valid() && this.numPkts == numPkts && log == [] && count == garbage
    {
      this.numPkts := numPkts;
      count, sendEvent, hasSocket := garbage, NoEvent, false;
      pending, nextUid, log := {}, 0, [];
    }

    method Cancel(event: EventId)
      modifies this`pending
      ensures pending == old(pending) - (if event.Uid? then {event.uid} else {})
    {
      if event.Uid? {
        pending := pending - {event.uid};
      }
    }

    method Schedule()
      modifies this`pending, this`nextUid, this`sendEvent
      ensures sendEvent == Uid(old(nextUid)) && pending == old(pending) + {old(nextUid)} && nextUid == old(nextUid) + 1
    {
      sendEvent := Uid(nextUid);
      pending := pending + {nextUid};
      nextUid := nextUid + 1;
    }

    method StartApplication()
      requires Valid()
      modifies this
      ensures Valid() && log == old(log) + [Started] && count == 0
    {
      LogNext(log, Started, Limit());
      if !hasSocket {
        hasSocket := true;
      }
      count := 0;
      Cancel(sendEvent);
      Schedule();
      log := log + [Started];
      assert pending == {sendEvent.uid};
    }

    method StopApplication()
      requires Valid()
      modifies this
      ensures Valid() && log == old(log) + [Stopped] && pending == {} && count == old(count)
    {
      LogNext(log, Stopped, Limit());
      Cancel(sendEvent);
      log := log + [Stopped];
    }

    /** The simulator executes a pending event, which is `SendPacket`. */
    method Fire(event: nat)
      requires Valid() && event in pending
      modifies this
      ensures Valid() && log == old(log) + [Sent] && count == old(count) + 1
    {
      LogNext(log, Sent, Limit());
      assert pending == {event};
      pending := pending - {event};
      log := log + [Sent];
      count := count + 1;
      if count < numPkts {
        Schedule();
      }
    }

    /** A start that nothing interrupts sends exactly the configured number of packets. */
    method RunUninterrupted()
      requires Valid()
      modifies this
      ensures Valid() && pending == {} && Active(log) && SentSinceStart(log) == Limit()
    {
      StartApplication();
      LogNext(old(log), Started, Limit());
      while pending != {}
        invariant Valid() && Active(log)
        decreases Limit() - count
      {
        var event :| event in pending;
        LogNext(log, Sent, Limit());
        Fire(event);
      }
    }
  }

  datatype Command = Start | Stop | FireNext

  /** The application without events: a start begins a new count, a stop ends it, and a firing sends
      while the count is below the limit. */
  ghost function Reference(commands: seq<Command>, limit: nat): seq<Op>
  {
    if commands == [] then []
    else
      var log := Reference(commands[..|commands| - 1], limit);
      match commands[|commands| - 1]
      case Start => log + [Started]
      case Stop => log + [Stopped]
      case FireNext => if Active(log) && SentSinceStart(log) < limit then log + [Sent] else log
  }

  lemma AfterOneMore(commands: seq<Command>, c: Command, limit: nat)
    ensures Reference([], limit) == [] && !Active([]) && SentSinceStart([]) == 0
    ensures var log := Reference(commands, limit);
            Reference(commands + [c], limit)
            == (match c
                case Start => log + [Started]
                case Stop => log + [Stopped]
                case FireNext => if Active(log) && SentSinceStart(log) < limit then log + [Sent] else log)
  {
    assert !Active([]) && SentSinceStart([]) == 0;
    hide Active, SentSinceStart;
    assert (commands + [c])[..|commands|] == commands;
  }

  /** With two packets per start: a second start begins anew, and nothing is sent beyond the limit. */
  lemma ExampleRun()
    ensures Reference([FireNext] + [Start] + [FireNext] + [Start] + [FireNext] + [FireNext] + [FireNext], 2)
         == [] + [Started] + [Sent] + [Started] + [Sent] + [Sent]
  {
    var a := [FireNext] + [Start] + [FireNext] + [Start];
    FirstCommands();
    var log := [] + [Started] + [Sent] + [Started];
    LogNext(log, Sent, 2);
    LogNext(log + [Sent], Sent, 2);
    hide Active, SentSinceStart, Reference, Lawful;
    AfterOneMore(a, FireNext, 2);
    AfterOneMore(a + [FireNext], FireNext, 2);
    AfterOneMore(a + [FireNext] + [FireNext], FireNext, 2);
  }

  lemma FirstCommands()
    ensures var log := [] + [Started] + [Sent] + [Started];
            && Reference([FireNext] + [Start] + [FireNext] + [Start], 2) == log
            && Lawful(log, 2) && Active(log) && SentSinceStart(log) == 0
  {
    var a := [FireNext];
    assert [] + a == a;
    AfterOneMore([], FireNext, 2);
    AfterOneMore(a, Start, 2);
    AfterOneMore(a + [Start], FireNext, 2);
    AfterOneMore(a + [Start] + [FireNext], Start, 2);
    LogNext([], Started, 2);
    LogNext([] + [Started], Sent, 2);
    LogNext([] + [Started] + [Sent], Started, 2);
    hide Active, SentSinceStart, Reference, Lawful;
  }

  /** A whole run: starts, stops and event firings in any order give what the application without events
      gives. At the end of every run at most one send event is pending and it is `m_sendEvent`; the
      counter is what was sent since the latest start, also after a stop. */
  method RunCommands(numPkts: nat, garbage: nat, commands: seq<Command>)
      returns (log: seq<Op>, count: nat, sendEvent: EventId, pending: set<nat>)
    requires numPkts >= 1
    ensures log == Reference(commands, numPkts)
    ensures Lawful(log, numPkts)
    ensures count == if Started in log then SentSinceStart(log) else garbage
    ensures Started in log ==> count <= numPkts
    ensures if Active(log) && count < numPkts then sendEvent.Uid? && pending == {sendEvent.uid} else pending == {}
  {
    var sender := new Sender(numPkts, garbage);
    for i := 0 to |commands|
      invariant fresh(sender) && sender.Valid() && sender.numPkts == numPkts
      invariant sender.log == Reference(commands[..i], numPkts)
      invariant Started !in sender.log ==> sender.count == garbage
    {
      assert commands[..i + 1][..i] == commands[..i];
      match commands[i] {
        case Start => sender.StartApplication();
        case Stop => sender.StopApplication();
        case FireNext =>
          if sender.pending != {} {
            var event :| event in sender.pending;
            sender.Fire(event);
          }
      }
    }
    assert commands[..|commands|] == commands;
    log, count, sendEvent, pending := sender.log, sender.count, sender.sendEvent, sender.pending;
    if pending != {} {
      var event :| event in pending;
      assert pending == {event};
    }
  }
}
