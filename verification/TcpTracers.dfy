/** The congestion-window and slow-start-threshold tracers of `tcp-variants-comparison.cc`. */
module TcpTracers {
  import opened TraceContext
  import opened Words

  /** A line of an output file: the "0.0 old" line, or a sample. */
  datatype Line = Initial(value: nat) | Sample(time: nat, value: nat)

  datatype Kind = Cwnd | SsThresh

  datatype Event = Event(kind: Kind, time: nat, oldval: nat, newval: nat)

  /** One stream of one node: whether nothing was written yet, what was, and the stored value. */
  datatype Trace = Trace(first: bool, lines: seq<Line>, value: nat)

  datatype NodeTrace = NodeTrace(cwnd: Trace, ssth: Trace)

  const UNTRACED := Trace(true, [], 0)

  function Of(n: NodeTrace, kind: Kind): Trace { if kind == Cwnd then n.cwnd else n.ssth }

  /** The stream a callback is for gets its own sample, after the first line when it has none. */
  function Own(t: Trace, e: Event): Trace
  {
    Trace(false, (if t.first then t.lines + [Initial(e.oldval)] else t.lines) + [Sample(e.time, e.newval)], e.newval)
  }

  /** The other stream repeats its stored value once it has started. */
  function Other(t: Trace, e: Event): Trace
  {
    if t.first then t else t.(lines := t.lines + [Sample(e.time, t.value)])
  }

  function Step(n: NodeTrace, e: Event): NodeTrace
  {
    match e.kind
    case Cwnd => NodeTrace(Own(n.cwnd, e), Other(n.ssth, e))
    case SsThresh => NodeTrace(Other(n.cwnd, e), Own(n.ssth, e))
  }

  function RunNode(es: seq<Event>): NodeTrace
  {
    if es == [] then NodeTrace(UNTRACED, UNTRACED) else Step(RunNode(es[..|es| - 1]), es[|es| - 1])
  }

  // ---------------------------------------------------------------- the streams in closed form

  /** The position of the first event of a kind, or the number of events. */
  ghost function First(es: seq<Event>, kind: Kind): (k: nat)
    ensures k <= |es| && (k < |es| ==> es[k].kind == kind) && forall i :: 0 <= i < k ==> es[i].kind != kind
  {
    if es == [] then 0
    else
      var n := |es| - 1;
      var k := First(es[..n], kind);
      if k < n then k else if es[n].kind == kind then n else n + 1
  }

  /** The value of the latest event of a kind. */
  ghost function Latest(es: seq<Event>, kind: Kind): nat
  {
    if es == [] then 0
    else if es[|es| - 1].kind == kind then es[|es| - 1].newval
    else Latest(es[..|es| - 1], kind)
  }

  lemma {:induction false} LatestIs(es: seq<Event>, kind: Kind, k: nat)
    requires k < |es| && es[k].kind == kind && forall i :: k < i < |es| ==> es[i].kind != kind
    ensures Latest(es, kind) == es[k].newval
  {
    if k < |es| - 1 {
      var front := es[..|es| - 1];
      assert forall i :: 0 <= i < |front| ==> front[i] == es[i];
      LatestIs(front, kind, k);
    }
  }

  /** One sample per event from position `from` on, each with the value current at that event. */
  ghost function Samples(es: seq<Event>, kind: Kind, from: nat): seq<Line>
    requires from <= |es|
  {
    seq(|es| - from, j requires 0 <= j < |es| - from => Sample(es[from + j].time, Latest(es[..from + j + 1], kind)))
  }

  ghost function Expected(es: seq<Event>, kind: Kind): seq<Line>
  {
    var k := First(es, kind);
    if k == |es| then [] else [Initial(es[k].oldval)] + Samples(es, kind, k)
  }

  lemma SamplesNext(es: seq<Event>, kind: Kind, from: nat)
    requires from < |es|
    ensures Samples(es, kind, from)
         == Samples(es[..|es| - 1], kind, from) + [Sample(es[|es| - 1].time, Latest(es, kind))]
  {
    var n := |es| - 1;
    assert es[..n + 1] == es;
    forall j | 0 <= j < n - from ensures Samples(es, kind, from)[j] == Samples(es[..n], kind, from)[j] {
      assert es[..n][..from + j + 1] == es[..from + j + 1];
    }
  }

  lemma NoSamples(es: seq<Event>, kind: Kind)
    ensures Samples(es, kind, |es|) == []
  {
  }

  /** Each stream is the "0.0 old" line of the first event of its kind followed by one sample for every
      event, of either kind, from then on. */
  lemma {:induction false} StreamsInClosedForm(es: seq<Event>, kind: Kind)
    ensures Of(RunNode(es), kind).lines == Expected(es, kind)
    ensures Of(RunNode(es), kind).value == Latest(es, kind)
    ensures Of(RunNode(es), kind).first <==> First(es, kind) == |es|
  {
    if es != [] {
      var n := |es| - 1;
      var k := First(es, kind);
      StreamsInClosedForm(es[..n], kind);
      hide Samples;
      if k < |es| {
        SamplesNext(es, kind, k);
        if k == n { NoSamples(es[..n], kind); }
      }
    }
  }

  /** A started stream begins with its one "0.0 old" line and ends with the stored value. */
  lemma StreamShape(es: seq<Event>, kind: Kind)
    requires First(es, kind) < |es|
    ensures var t := Of(RunNode(es), kind);
            && !t.first && |t.lines| >= 2
            && t.lines[0] == Initial(es[First(es, kind)].oldval)
            && (forall i :: 1 <= i < |t.lines| ==> t.lines[i].Sample?)
            && t.lines[|t.lines| - 1] == Sample(es[|es| - 1].time, t.value)
  {
    StreamsInClosedForm(es, kind);
    assert es[..|es|] == es;
  }

  lemma SampleFromEnd(es: seq<Event>, kind: Kind, d: nat)
    requires d + First(es, kind) < |es|
    ensures var lines := Of(RunNode(es), kind).lines;
            && d + 1 < |lines|
            && lines[|lines| - 1 - d] == Sample(es[|es| - 1 - d].time, Latest(es[..|es| - d], kind))
  {
    hide RunNode, Latest, First;
    StreamsInClosedForm(es, kind);
    var k := First(es, kind);
    var j := |es| - 1 - d - k;
    assert k + j + 1 == |es| - d;
    assert Expected(es, kind)[j + 1] == Samples(es, kind, k)[j];
  }

  /** Once both streams have started they get one sample each per event, at the same time: counted from
      the end, the samples of both carry the times of the events. */
  lemma StreamsInLockStep(es: seq<Event>, d: nat)
    requires d + First(es, Cwnd) < |es| && d + First(es, SsThresh) < |es|
    ensures var c, s := RunNode(es).cwnd.lines, RunNode(es).ssth.lines;
            && d + 1 < |c| && d + 1 < |s|
            && c[|c| - 1 - d] == Sample(es[|es| - 1 - d].time, Latest(es[..|es| - d], Cwnd))
            && s[|s| - 1 - d] == Sample(es[|es| - 1 - d].time, Latest(es[..|es| - d], SsThresh))
  {
    hide RunNode, Latest, First;
    SampleFromEnd(es, Cwnd, d);
    SampleFromEnd(es, SsThresh, d);
  }

  /** A node that sets its threshold, then its window twice, then its threshold again. */
  lemma ExampleStreams()
    ensures var n := RunNode([Event(SsThresh, 1, 10, 20), Event(Cwnd, 2, 3, 4), Event(Cwnd, 5, 4, 6), Event(SsThresh, 7, 20, 9)]);
            && n.cwnd.lines == [Initial(3), Sample(2, 4), Sample(5, 6), Sample(7, 6)]
            && n.ssth.lines == [Initial(10), Sample(1, 20), Sample(2, 20), Sample(5, 20), Sample(7, 9)]
  {
    var es := [Event(SsThresh, 1, 10, 20), Event(Cwnd, 2, 3, 4), Event(Cwnd, 5, 4, 6), Event(SsThresh, 7, 20, 9)];
    assert es[..0] == [] && es[..4] == es;
    PrefixStep(es, 0);
    PrefixStep(es, 1);
    PrefixStep(es, 2);
    PrefixStep(es, 3);
    hide RunNode;
  }

  lemma PrefixStep(es: seq<Event>, k: nat)
    requires k < |es|
    ensures RunNode(es[..k + 1]) == Step(RunNode(es[..k]), es[k])
  {
    assert es[..k + 1][..k] == es[..k];
  }

  // ---------------------------------------------------------------- the tracers

  /** A callback: the context it comes with, and the event. */
  datatype Call = Call(nodeId: nat, event: Event)

  /** The events of one node, in order. */
  function EventsOf(calls: seq<Call>, nodeId: nat): seq<Event>
  {
    if calls == [] then []
    else
      var n := |calls| - 1;
      EventsOf(calls[..n], nodeId) + (if calls[n].nodeId == nodeId then [calls[n].event] else [])
  }

  class Tracers {
    var firstCwnd: map<nat, bool>
    var firstSshThr: map<nat, bool>
    var cWndStream: map<nat, seq<Line>>
    var ssThreshStream: map<nat, seq<Line>>
    var cWndValue: map<nat, nat>
    var ssThreshValue: map<nat, nat>

    /** The streams of the node are open. */
    ghost predicate Open(id: nat)
      reads this
    {
      && id in firstCwnd && id in cWndStream && id in cWndValue
      && id in firstSshThr && id in ssThreshStream && id in ssThreshValue
    }

    ghost function Node(nodeId: nat): NodeTrace
      requires Open(nodeId)
      reads this
    {
      NodeTrace(Trace(firstCwnd[nodeId], cWndStream[nodeId], cWndValue[nodeId]),
                Trace(firstSshThr[nodeId], ssThreshStream[nodeId], ssThreshValue[nodeId]))
    }

    constructor (nodes: set<nat>)
      ensures forall id :: id in nodes ==> Open(id) && Node(id) == RunNode([])
      ensures cWndStream.Keys == nodes && ssThreshStream.Keys == nodes
    {
      firstCwnd := map id | id in nodes :: true;
      firstSshThr := map id | id in nodes :: true;
      cWndStream := map id | id in nodes :: [];
      ssThreshStream := map id | id in nodes :: [];
      cWndValue := map id | id in nodes :: 0;
      ssThreshValue := map id | id in nodes :: 0;
    }

    /** What a callback for one node leaves: that node has taken a step, all others are as before. */
    twostate predicate Stepped(nodeId: nat, e: Event)
      requires old(Open(nodeId)) && Open(nodeId)
      reads this
    {
      && Node(nodeId) == Step(old(Node(nodeId)), e)
      && cWndStream.Keys == old(cWndStream.Keys) && ssThreshStream.Keys == old(ssThreshStream.Keys)
      && forall id :: id != nodeId && old(Open(id)) ==> Open(id) && Node(id) == old(Node(id))
    }

    method CwndTracer(context: string, now: nat, oldval: nat, newval: nat)
      requires GetNodeIdFromContext(context).Some? && Open(GetNodeIdFromContext(context).value)
      modifies this
      ensures Open(GetNodeIdFromContext(context).value)
      ensures Stepped(GetNodeIdFromContext(context).value, Event(Cwnd, now, oldval, newval))
    {
      var nodeId := GetNodeIdFromContext(context).value;
      hide GetNodeIdFromContext;
      if firstCwnd[nodeId] {
        cWndStream := cWndStream[nodeId := cWndStream[nodeId] + [Initial(oldval)]];
        firstCwnd := firstCwnd[nodeId := false];
      }
      cWndStream := cWndStream[nodeId := cWndStream[nodeId] + [Sample(now, newval)]];
      cWndValue := cWndValue[nodeId := newval];
      if !firstSshThr[nodeId] {
        ssThreshStream := ssThreshStream[nodeId := ssThreshStream[nodeId] + [Sample(now, ssThreshValue[nodeId])]];
      }
    }

    method SsThreshTracer(context: string, now: nat, oldval: nat, newval: nat)
      requires GetNodeIdFromContext(context).Some? && Open(GetNodeIdFromContext(context).value)
      modifies this
      ensures Open(GetNodeIdFromContext(context).value)
      ensures Stepped(GetNodeIdFromContext(context).value, Event(SsThresh, now, oldval, newval))
    {
      var nodeId := GetNodeIdFromContext(context).value;
      hide GetNodeIdFromContext;
      if firstSshThr[nodeId] {
        ssThreshStream := ssThreshStream[nodeId := ssThreshStream[nodeId] + [Initial(oldval)]];
        firstSshThr := firstSshThr[nodeId := false];
      }
      ssThreshStream := ssThreshStream[nodeId := ssThreshStream[nodeId] + [Sample(now, newval)]];
      ssThreshValue := ssThreshValue[nodeId := newval];
      if !firstCwnd[nodeId] {
        cWndStream := cWndStream[nodeId := cWndStream[nodeId] + [Sample(now, cWndValue[nodeId])]];
      }
    }
  }

  const CWND_TAIL := "/" + "$ns3::TcpL4Protocol/SocketList/0/CongestionWindow"
  const SSTHRESH_TAIL := "/" + "$ns3::TcpL4Protocol/SocketList/0/SlowStartThreshold"

  /** A whole run: callbacks for any of the nodes in any order, each with the context its trace source
      was connected with. The two streams of a node depend on the events of that node alone, and are
      the closed form of those. */
  method Replay(nodes: set<nat>, calls: seq<Call>) returns (cwnd: map<nat, seq<Line>>, ssth: map<nat, seq<Line>>)
    requires forall id :: id in nodes ==> id < TWO_32
    requires forall k :: 0 <= k < |calls| ==> calls[k].nodeId in nodes
    ensures cwnd.Keys == nodes && ssth.Keys == nodes
    ensures forall id :: id in nodes ==> cwnd[id] == Expected(EventsOf(calls, id), Cwnd)
    ensures forall id :: id in nodes ==> ssth[id] == Expected(EventsOf(calls, id), SsThresh)
  {
    var tracers := new Tracers(nodes);
    for k := 0 to |calls|
      invariant fresh(tracers) && Tracked(tracers, nodes, calls[..k])
    {
      Deliver(tracers, nodes, calls, k);
    }
    assert calls[..|calls|] == calls;
    cwnd, ssth := tracers.cWndStream, tracers.ssThreshStream;
    forall id | id in nodes
      ensures cwnd[id] == Expected(EventsOf(calls, id), Cwnd) && ssth[id] == Expected(EventsOf(calls, id), SsThresh)
    {
      hide RunNode, Expected, EventsOf;
      assert tracers.Open(id) && tracers.Node(id) == RunNode(EventsOf(calls, id));
      StreamsInClosedForm(EventsOf(calls, id), Cwnd);
      StreamsInClosedForm(EventsOf(calls, id), SsThresh);
    }
  }

  /** Every node is where its own events have brought it, and no other node has a stream. */
  ghost predicate Tracked(tracers: Tracers, nodes: set<nat>, calls: seq<Call>)
    reads tracers
  {
    && tracers.cWndStream.Keys == nodes && tracers.ssThreshStream.Keys == nodes
    && forall id :: id in nodes ==> tracers.Open(id) && tracers.Node(id) == RunNode(EventsOf(calls, id))
  }

  method Deliver(tracers: Tracers, nodes: set<nat>, calls: seq<Call>, k: nat)
    requires k < |calls| && calls[k].nodeId in nodes && calls[k].nodeId < TWO_32
    requires Tracked(tracers, nodes, calls[..k])
    modifies tracers
    ensures Tracked(tracers, nodes, calls[..k + 1])
  {
    hide RunNode, Step, EventsOf, GetNodeIdFromContext, TracePath;
    var id, e := calls[k].nodeId, calls[k].event;
    ShortPath(id);
    if e.kind == Cwnd {
      NodeIdRoundTrip(id, CWND_TAIL);
      tracers.CwndTracer(TracePath(id, CWND_TAIL), e.time, e.oldval, e.newval);
    } else {
      NodeIdRoundTrip(id, SSTHRESH_TAIL);
      tracers.SsThreshTracer(TracePath(id, SSTHRESH_TAIL), e.time, e.oldval, e.newval);
    }
    forall n | n in nodes ensures tracers.Open(n) && tracers.Node(n) == RunNode(EventsOf(calls[..k + 1], n)) {
      RunNodeNext(calls, k, n);
    }
  }

  lemma RunNodeNext(calls: seq<Call>, k: nat, id: nat)
    requires k < |calls|
    ensures RunNode(EventsOf(calls[..k + 1], id))
         == if calls[k].nodeId == id then Step(RunNode(EventsOf(calls[..k], id)), calls[k].event)
            else RunNode(EventsOf(calls[..k], id))
  {
    assert calls[..k + 1][..k] == calls[..k];
    var es := EventsOf(calls[..k], id);
    assert (es + [calls[k].event])[..|es|] == es;
    assert es + [] == es;
  }

  lemma {:induction false} DigitsOf(n: nat, digits: nat)
    requires digits >= 1 && n < Power10(digits)
    ensures |ToString(n)| <= digits
  {
    if n >= 10 { DigitsOf(n / 10, digits - 1); }
  }

  function Power10(k: nat): nat { if k == 0 then 1 else 10 * Power10(k - 1) }

  lemma ShortPath(id: nat)
    requires id < TWO_32
    ensures |TracePath(id, CWND_TAIL)| < NPOS && |TracePath(id, SSTHRESH_TAIL)| < NPOS
    ensures CWND_TAIL != [] && CWND_TAIL[0] == '/' && SSTHRESH_TAIL != [] && SSTHRESH_TAIL[0] == '/'
  {
    assert Power10(10) == 10000000000;
    DigitsOf(id, 10);
  }
}
