/** The window queries of `grid.py`: binary searches over sorted ranges and events, against plain
    filters. */
module Timeline {
  import opened Sequences
  import opened KeyedSort

  datatype Range = Range(start: int, end: int)

  datatype Event = Event(at: int, value: int)

  /** A Python slice with non-negative bounds. */
  function Slice<T>(s: seq<T>, from: nat, to: nat): seq<T>
  {
    var hi := if to < |s| then to else |s|;
    if from <= hi then s[from..hi] else []
  }

  // ---------------------------------------------------------------- ranges

  /** Sorted, disjoint, closed ranges. */
  ghost predicate Arranged(rs: seq<Range>)
  {
    && (forall i :: 0 <= i < |rs| ==> rs[i].start <= rs[i].end)
    && (forall i, j :: 0 <= i < j < |rs| ==> rs[i].end < rs[j].start)
  }

  predicate Holds(r: Range, key: int) { r.start <= key <= r.end }

  ghost predicate Covered(rs: seq<Range>, key: int) { exists i :: 0 <= i < |rs| && Holds(rs[i], key) }

  predicate Overlaps(r: Range, start: int, end: int) { r.start <= end && start <= r.end }

  function Meeting(start: int, end: int): Range -> bool { (r: Range) => Overlaps(r, start, end) }

  /** The ranges that meet the window, in order. */
  function Overlapping(rs: seq<Range>, start: int, end: int): seq<Range> { Filter(rs, Meeting(start, end)) }

  /** A range is kept exactly when it neither ends before the window nor starts after it. */
  lemma OverlappingMeans(rs: seq<Range>, start: int, end: int, r: Range)
    ensures r in Overlapping(rs, start, end) <==> r in rs && !(r.end < start) && !(end < r.start)
  {
    FilterMember(rs, Meeting(start, end), r);
  }

  /** When the window query answers with exactly the ranges that meet the window: an end that lies in a
      gap is taken as unlimited, so no range may lie beyond it; with both ends in gaps the answer is
      empty, so no range may start inside. */
  ghost predicate Exact(rs: seq<Range>, start: int, end: int)
  {
    if Covered(rs, start) then Covered(rs, end) || rs[|rs| - 1].start <= end
    else if Covered(rs, end) then start <= rs[0].end
    else forall i :: 0 <= i < |rs| ==> !(start < rs[i].start <= end)
  }

  /** The answer of the window query in terms of the filter. */
  ghost predicate Answers(rs: seq<Range>, start: int, end: int, result: seq<Range>)
  {
    && (Covered(rs, start) && Covered(rs, end) ==> result == Overlapping(rs, start, end))
    && (Covered(rs, start) && !Covered(rs, end) ==> result == Overlapping(rs, start, rs[|rs| - 1].end))
    && (!Covered(rs, start) && Covered(rs, end) ==> result == Overlapping(rs, rs[0].start, end))
    && (!Covered(rs, start) && !Covered(rs, end) ==> result == [])
  }

  lemma BothInside(rs: seq<Range>, start: int, end: int, s: nat, e: nat)
    requires Arranged(rs) && s < |rs| && e < |rs| && Holds(rs[s], start) && Holds(rs[e], end)
    ensures Slice(rs, s, e + 1) == Overlapping(rs, start, end)
  {
    forall i | 0 <= i < |rs| ensures Overlaps(rs[i], start, end) <==> s <= i <= e {
    }
    if s <= e {
      FilterIsSlice(rs, Meeting(start, end), s, e + 1);
    } else {
      FilterIsSlice(rs, Meeting(start, end), s, s);
    }
  }

  lemma StartInside(rs: seq<Range>, start: int, s: nat)
    requires Arranged(rs) && s < |rs| && Holds(rs[s], start)
    ensures Slice(rs, s, |rs|) == Overlapping(rs, start, rs[|rs| - 1].end)
  {
    forall i | 0 <= i < |rs| ensures Overlaps(rs[i], start, rs[|rs| - 1].end) <==> s <= i {
    }
    FilterIsSlice(rs, Meeting(start, rs[|rs| - 1].end), s, |rs|);
  }

  lemma EndInside(rs: seq<Range>, end: int, e: nat)
    requires Arranged(rs) && e < |rs| && Holds(rs[e], end)
    ensures Slice(rs, 0, e + 1) == Overlapping(rs, rs[0].start, end)
  {
    forall i | 0 <= i < |rs| ensures Overlaps(rs[i], rs[0].start, end) <==> i <= e {
    }
    FilterIsSlice(rs, Meeting(rs[0].start, end), 0, e + 1);
  }

  /** With an end of the window inside a range every range that meets the window is in the answer. */
  lemma AnswerContainsAll(rs: seq<Range>, start: int, end: int, result: seq<Range>, r: Range)
    requires Arranged(rs) && Answers(rs, start, end, result) && (Covered(rs, start) || Covered(rs, end))
    requires r in Overlapping(rs, start, end)
    ensures r in result
  {
    FilterMember(rs, Meeting(start, end), r);
    FilterMember(rs, Meeting(start, rs[|rs| - 1].end), r);
    FilterMember(rs, Meeting(rs[0].start, end), r);
    var i :| 0 <= i < |rs| && rs[i] == r;
    assert rs[i].start <= rs[|rs| - 1].end && rs[0].start <= rs[i].end;
  }

  lemma ExactAfterStart(rs: seq<Range>, start: int, end: int, result: seq<Range>)
    requires Arranged(rs) && Answers(rs, start, end, result) && Covered(rs, start) && !Covered(rs, end)
    ensures result == Overlapping(rs, start, end) <==> rs[|rs| - 1].start <= end
  {
    var last := rs[|rs| - 1];
    if last.start <= end {
      FilterSame(rs, Meeting(start, end), Meeting(start, last.end));
    } else {
      FilterMember(rs, Meeting(start, end), last);
      FilterMember(rs, Meeting(start, last.end), last);
    }
  }

  lemma ExactBeforeEnd(rs: seq<Range>, start: int, end: int, result: seq<Range>)
    requires Arranged(rs) && Answers(rs, start, end, result) && !Covered(rs, start) && Covered(rs, end)
    ensures result == Overlapping(rs, start, end) <==> start <= rs[0].end
  {
    if start <= rs[0].end {
      FilterSame(rs, Meeting(start, end), Meeting(rs[0].start, end));
    } else {
      FilterMember(rs, Meeting(start, end), rs[0]);
      FilterMember(rs, Meeting(rs[0].start, end), rs[0]);
    }
  }

  lemma ExactInGaps(rs: seq<Range>, start: int, end: int)
    requires Arranged(rs) && !Covered(rs, start) && !Covered(rs, end)
    ensures [] == Overlapping(rs, start, end) <==> Exact(rs, start, end)
  {
    assert forall i :: 0 <= i < |rs| ==> !Holds(rs[i], start) && !Holds(rs[i], end);
    if Exact(rs, start, end) {
      FilterNone(rs, Meeting(start, end));
    } else {
      var i :| 0 <= i < |rs| && start < rs[i].start <= end;
      FilterMember(rs, Meeting(start, end), rs[i]);
    }
  }

  /** The answer is the filter exactly when `Exact` says so. */
  lemma AnswersExactlyWhen(rs: seq<Range>, start: int, end: int, result: seq<Range>)
    requires Arranged(rs) && Answers(rs, start, end, result)
    ensures result == Overlapping(rs, start, end) <==> Exact(rs, start, end)
  {
    if Covered(rs, start) && !Covered(rs, end) {
      ExactAfterStart(rs, start, end, result);
    } else if !Covered(rs, start) && Covered(rs, end) {
      ExactBeforeEnd(rs, start, end, result);
    } else if !Covered(rs, start) {
      ExactInGaps(rs, start, end);
    }
  }

  function Start(): Range -> int { (r: Range) => r.start }

  function Disjoint(): (Range, Range) -> bool { (a: Range, b: Range) => !Overlaps(a, b.start, b.end) }

  /** Proper ranges no two of which meet, in whatever order. */
  ghost predicate Apart(rs: seq<Range>)
  {
    (forall r :: r in rs ==> r.start <= r.end) && Pairwise(rs, Disjoint())
  }

  lemma OrderedApart(rs: seq<Range>)
    requires Ordered(rs, Start())
    ensures Arranged(rs) <==> Apart(rs)
  {
    if Apart(rs) {
      forall i, j | 0 <= i < j < |rs| ensures rs[i].end < rs[j].start {
        assert Disjoint()(rs[i], rs[j]) && Start()(rs[i]) <= Start()(rs[j]);
        assert rs[j] in rs;
      }
    }
  }

  lemma ArrangedWhenApart(rs: seq<Range>)
    ensures Arranged(SortBy(rs, Start())) <==> Apart(rs)
  {
    SortByOrdered(rs, Start());
    OrderedApart(SortBy(rs, Start()));
    PairwiseSorted(rs, Start(), Disjoint());
    forall r ensures r in SortBy(rs, Start()) <==> r in rs {
      SortMember(rs, Start(), r);
    }
  }

  class TimelineDataRange {
    var ranges: seq<Range>

    constructor ()
      ensures ranges == []
    {
      ranges := [];
    }

    method AddRange(range: Range)
      modifies this
      ensures ranges == old(ranges) + [range]
    {
      ranges := ranges + [range];
    }

    /** Afterwards the ranges are arranged exactly when the ranges added were proper and disjoint. */
    method Sort()
      modifies this
      ensures ranges == SortBy(old(ranges), Start())
      ensures Arranged(ranges) <==> Apart(old(ranges))
    {
      ArrangedWhenApart(ranges);
      ranges := SortBy(ranges, Start());
    }

    /** The position of the range that holds `key`, or -1. */
    method Search(key: int) returns (index: int)
      requires Arranged(ranges)
      ensures -1 <= index < |ranges|
      ensures index >= 0 ==> forall i :: 0 <= i < |ranges| ==> (ranges[i].start <= key <= ranges[i].end <==> i == index)
      ensures index == -1 <==> forall i :: 0 <= i < |ranges| ==> !(ranges[i].start <= key <= ranges[i].end)
      ensures index == -1 <==> !Covered(ranges, key)
    {
      var l, u := 0, |ranges| - 1;
      while l <= u
        invariant 0 <= l <= |ranges| && -1 <= u < |ranges|
        invariant forall i :: 0 <= i < l ==> ranges[i].end < key
        invariant forall i :: u < i < |ranges| ==> key < ranges[i].start
      {
        var i := (l + u) / 2;
        if key >= ranges[i].start && key <= ranges[i].end {
          return i;
        } else if key < ranges[i].start {
          u := i - 1;
        } else {
          l := i + 1;
        }
      }
      return -1;
    }

    method GetRangesBounds(start: int, end: int) returns (lo: nat, hi: nat)
      requires Arranged(ranges)
      ensures hi <= |ranges| && Answers(ranges, start, end, Slice(ranges, lo, hi))
    {
      var s := Search(start);
      var e := Search(end);
      if s == -1 && e == -1 {
        lo, hi := 0, 0;
      } else if s == -1 {
        lo, hi := 0, e + 1;
        EndInside(ranges, end, e);
      } else if e == -1 {
        lo, hi := s, |ranges|;
        StartInside(ranges, start, s);
      } else {
        lo, hi := s, e + 1;
        BothInside(ranges, start, end, s, e);
      }
    }

    /** The ranges for a window. */
    method GetRanges(start: int, end: int) returns (result: seq<Range>)
      requires Arranged(ranges)
      ensures Answers(ranges, start, end, result)
      ensures result == Overlapping(ranges, start, end) <==> Exact(ranges, start, end)
    {
      var s := Search(start);
      var e := Search(end);
      if s == -1 && e == -1 {
        result := [];
      } else if s == -1 {
        result := Slice(ranges, 0, e + 1);
        EndInside(ranges, end, e);
      } else if e == -1 {
        result := Slice(ranges, s, |ranges|);
        StartInside(ranges, start, s);
      } else {
        result := Slice(ranges, s, e + 1);
        BothInside(ranges, start, end, s, e);
      }
      AnswersExactlyWhen(ranges, start, end, result);
    }
  }

  /** From empty: add ranges in any order, sort, ask. */
  method QueryRanges(added: seq<Range>, start: int, end: int) returns (result: seq<Range>)
    requires Apart(added)
    ensures var rs := SortBy(added, Start());
            && Answers(rs, start, end, result)
            && (result == Overlapping(rs, start, end) <==> Exact(rs, start, end))
  {
    var data := new TimelineDataRange();
    for i := 0 to |added|
      invariant fresh(data) && data.ranges == added[..i]
    {
      data.AddRange(added[i]);
    }
    assert added[..|added|] == added;
    data.Sort();
    result := data.GetRanges(start, end);
  }

  // ---------------------------------------------------------------- events

  ghost predicate Ascending(es: seq<Event>) { forall i, j :: 0 <= i < j < |es| ==> es[i].at <= es[j].at }

  ghost predicate Increasing(es: seq<Event>) { forall i, j :: 0 <= i < j < |es| ==> es[i].at < es[j].at }

  function InWindow(start: int, end: int): Event -> bool { (e: Event) => start <= e.at <= end }

  function Inside(start: int, end: int): Event -> bool { (e: Event) => start < e.at < end }

  function At(key: int): Event -> bool { (e: Event) => e.at == key }

  function NotBefore(key: int): Event -> bool { (e: Event) => key <= e.at }

  /** The events in the window, in order. */
  function Within(es: seq<Event>, start: int, end: int): seq<Event> { Filter(es, InWindow(start, end)) }

  /** The event the query adds after the window: the first one at or after its end, unless that one is
      at the end itself or lies before the start. */
  function Extra(es: seq<Event>, start: int, end: int): seq<Event>
  {
    var rest := Filter(es, NotBefore(end));
    if rest == [] || rest[0].at == end || rest[0].at < start then [] else [rest[0]]
  }

  /** Where the binary search between `l` and `u` ends. */
  function Landing(es: seq<Event>, key: int, l: nat, u: int): (k: nat)
    requires l <= u + 1 <= |es|
    ensures k <= |es|
    decreases u + 1 - l
  {
    if l > u then l
    else
      var i := (l + u) / 2;
      if key == es[i].at then i
      else if key < es[i].at then Landing(es, key, l, i - 1)
      else Landing(es, key, i + 1, u)
  }

  function Lands(es: seq<Event>, key: int): (k: nat)
    ensures k <= |es|
  {
    Landing(es, key, 0, |es| - 1)
  }

  /** The events at `key` are those from `a` up to `b`, and all others are on their side of them. */
  ghost predicate Block(es: seq<Event>, key: int, a: nat, b: nat)
  {
    && a <= b <= |es|
    && (forall i :: 0 <= i < |es| ==> (key <= es[i].at <==> a <= i))
    && (forall i :: 0 <= i < |es| ==> (key < es[i].at <==> b <= i))
  }

  /** An event at the key if there is one, and otherwise the place where it would belong; with increasing
      times, the number of events before the key. */
  ghost predicate Positioned(es: seq<Event>, key: int, k: nat)
  {
    && k <= |es|
    && (forall i :: 0 <= i < k ==> es[i].at <= key)
    && (forall i :: k <= i < |es| ==> key <= es[i].at)
    && ((k < |es| && es[k].at == key) || forall i :: 0 <= i < |es| ==> es[i].at != key)
    && (Increasing(es) ==> forall i :: 0 <= i < |es| ==> (key <= es[i].at <==> k <= i))
  }

  lemma SearchMeans(es: seq<Event>, key: int)
    requires Ascending(es)
    ensures Positioned(es, key, Lands(es, key))
  {
    var a, b := FindBlock(es, key);
    LandsInBlock(es, key, a, b, 0, |es| - 1);
    hide Landing, Positioned;
    PositionedInBlock(es, key, a, b, Lands(es, key));
  }

  lemma PositionedInBlock(es: seq<Event>, key: int, a: nat, b: nat, k: nat)
    requires Block(es, key, a, b) && if a < b then a <= k < b else k == a
    ensures Positioned(es, key, k)
  {
    if Increasing(es) { SingleBlock(es, key, a, b); }
    hide Increasing;
  }

  lemma {:induction false} FindBlock(es: seq<Event>, key: int) returns (a: nat, b: nat)
    requires Ascending(es)
    ensures Block(es, key, a, b)
  {
    if es == [] {
      a, b := 0, 0;
    } else {
      var n := |es| - 1;
      assert forall i :: 0 <= i < n ==> es[..n][i] == es[i];
      a, b := FindBlock(es[..n], key);
      if es[n].at < key { a := n + 1; }
      if es[n].at <= key { b := n + 1; }
      assert forall i :: 0 <= i < n ==> es[..n][i].at <= es[n].at;
    }
  }

  /** A search lands on an event at the key if there is one, and otherwise where it would belong. */
  lemma {:induction false} LandsInBlock(es: seq<Event>, key: int, a: nat, b: nat, l: nat, u: int)
    requires Block(es, key, a, b) && l <= u + 1 <= |es| && l <= a && b <= u + 1
    ensures var k := Landing(es, key, l, u); if a < b then a <= k < b else k == a
    decreases u + 1 - l
  {
    if l <= u {
      var i := (l + u) / 2;
      if key < es[i].at {
        LandsInBlock(es, key, a, b, l, i - 1);
      } else if es[i].at < key {
        LandsInBlock(es, key, a, b, i + 1, u);
      }
    }
  }

  // ---------------------------------------------------------------- what a window query covers

  /** The answer to a proper window: some of the events at its start, the last of them included; all
      events strictly inside; and some of the events at its end, the first of them included, or the
      next event when there is none at the end. */
  ghost predicate Covers(es: seq<Event>, start: int, end: int, result: seq<Event>)
  {
    exists pre, post :: CoversWith(es, start, end, result, pre, post)
  }

  ghost predicate CoversWith(es: seq<Event>, start: int, end: int, result: seq<Event>, pre: seq<Event>, post: seq<Event>)
  {
    && result == pre + Filter(es, Inside(start, end)) + post
    && IsSuffix(pre, Filter(es, At(start)))
    && IsFollowUp(es, end, post)
  }

  /** Ends the list, and is not empty unless the list is. */
  ghost predicate IsSuffix(pre: seq<Event>, all: seq<Event>)
  {
    |pre| <= |all| && pre == all[|all| - |pre|..] && (pre == [] ==> all == [])
  }

  ghost predicate IsFollowUp(es: seq<Event>, end: int, post: seq<Event>)
  {
    var there, rest := Filter(es, At(end)), Filter(es, NotBefore(end));
    if there != [] then post != [] && post <= there
    else post == if rest == [] then [] else [rest[0]]
  }

  lemma AtIsBlock(es: seq<Event>, key: int, a: nat, b: nat)
    requires Block(es, key, a, b)
    ensures a <= b <= |es| && Filter(es, At(key)) == es[a..b]
    ensures Filter(es, NotBefore(key)) == es[a..]
  {
    hide Filter;
    FilterIsSlice(es, At(key), a, b);
    FilterIsSlice(es, NotBefore(key), a, |es|);
    assert es[a..|es|] == es[a..];
  }

  lemma InsideIsSlice(es: seq<Event>, start: int, end: int, a: nat, b: nat, c: nat, d: nat)
    requires Block(es, start, a, b) && Block(es, end, c, d) && start < end
    ensures b <= c <= |es| && Filter(es, Inside(start, end)) == es[b..c]
  {
    hide Filter;
    BlocksOrdered(es, start, end, a, b, c, d);
    FilterIsSlice(es, Inside(start, end), b, c);
  }

  lemma WithinIsSlice(es: seq<Event>, start: int, end: int, a: nat, b: nat, c: nat, d: nat)
    requires Block(es, start, a, b) && Block(es, end, c, d)
    ensures start <= end ==> a <= d <= |es| && Within(es, start, end) == es[a..d]
    ensures start > end ==> d <= a && Within(es, start, end) == []
  {
    hide Filter;
    BlocksOrdered(es, start, end, a, b, c, d);
    if start <= end {
      FilterIsSlice(es, InWindow(start, end), a, d);
    } else {
      FilterNone(es, InWindow(start, end));
    }
  }

  lemma BlocksOrdered(es: seq<Event>, start: int, end: int, a: nat, b: nat, c: nat, d: nat)
    requires Block(es, start, a, b) && Block(es, end, c, d)
    ensures start <= end ==> a <= c && b <= d
    ensures start < end ==> b <= c
    ensures start > end ==> d <= a
  {
    assert c < |es| ==> end <= es[c].at;
    assert d < |es| ==> end < es[d].at;
    assert a < |es| ==> start <= es[a].at;
  }

  /** Where the slice for a search that landed on `e` stops. */
  function StopAfter(es: seq<Event>, e: nat): nat { if e + 1 < |es| then e + 1 else |es| }

  /** For every list in ascending order and every proper window no event strictly inside is missed, and
      what the answer holds beside these. */
  lemma AnswerCovers(es: seq<Event>, start: int, end: int)
    requires Ascending(es) && start < end
    ensures Covers(es, start, end, Slice(es, Lands(es, start), Lands(es, end) + 1))
  {
    hide Filter, Landing, Lands, Block, Ascending, Covers, IsSuffix, IsFollowUp, StopAfter;
    var a, b := FindBlock(es, start);
    var c, d := FindBlock(es, end);
    var s, e := Lands(es, start), Lands(es, end);
    StartPart(es, start, a, b);
    EndPart(es, end, c, d);
    InsideIsSlice(es, start, end, a, b, c, d);
    FourParts(es, s, b, c, e);
    CoversParts(es, start, end, Slice(es, s, e + 1), es[s..b], es[c..StopAfter(es, e)]);
  }

  lemma StartPart(es: seq<Event>, start: int, a: nat, b: nat)
    requires Block(es, start, a, b)
    ensures Lands(es, start) <= b <= |es| && IsSuffix(es[Lands(es, start)..b], Filter(es, At(start)))
  {
    hide Filter, Landing, Lands, LandsFirst, LandsLast;
    FirstAndLast(es, start, a, b);
    AtIsBlock(es, start, a, b);
    SuffixOfSlice(es, a, Lands(es, start), b);
  }

  lemma EndPart(es: seq<Event>, end: int, c: nat, d: nat)
    requires Block(es, end, c, d)
    ensures var hi := StopAfter(es, Lands(es, end));
            c <= hi <= |es| && IsFollowUp(es, end, es[c..hi])
  {
    hide Filter, Landing, Lands, LandsFirst, LandsLast, IsFollowUp;
    FirstAndLast(es, end, c, d);
    AtIsBlock(es, end, c, d);
    FollowUpOfBlock(es, end, c, d, StopAfter(es, Lands(es, end)));
  }

  lemma SuffixOfSlice(es: seq<Event>, a: nat, s: nat, b: nat)
    requires a <= s <= b <= |es| && (a < b ==> s < b)
    ensures IsSuffix(es[s..b], es[a..b])
  {
    assert es[s..b] == es[a..b][s - a..];
  }

  lemma FollowUpOfBlock(es: seq<Event>, end: int, c: nat, d: nat, hi: nat)
    requires c <= d <= |es| && Filter(es, At(end)) == es[c..d] && Filter(es, NotBefore(end)) == es[c..]
    requires if c < d then c < hi <= d else hi == if c < |es| then c + 1 else c
    ensures IsFollowUp(es, end, es[c..hi])
  {
    hide Filter;
    if c < d {
      assert es[c..hi] == es[c..d][..hi - c];
    } else if c < |es| {
      assert es[c..c + 1] == [es[c..][0]];
    }
  }

  lemma FourParts(es: seq<Event>, s: nat, b: nat, c: nat, e: nat)
    requires s <= b <= c <= StopAfter(es, e) <= |es|
    ensures Slice(es, s, e + 1) == es[s..b] + es[b..c] + es[c..StopAfter(es, e)]
  {
  }

  lemma CoversParts(es: seq<Event>, start: int, end: int, result: seq<Event>, pre: seq<Event>, post: seq<Event>)
    requires CoversWith(es, start, end, result, pre, post)
    ensures Covers(es, start, end, result)
  {
    hide CoversWith;
  }

  // ---------------------------------------------------------------- when a window query is the filter

  /** The search meets the first of the events at the key. */
  ghost predicate LandsFirst(es: seq<Event>, key: int)
  {
    forall i :: 0 <= i < Lands(es, key) ==> es[i].at < key
  }

  ghost predicate LandsLast(es: seq<Event>, key: int)
  {
    forall i :: Lands(es, key) < i < |es| ==> key < es[i].at
  }

  /** What a caller can check: the searches meet the first event at the start and the last one at the end;
      in an inverted window the first suffices, and nothing is needed when an event lies between. */
  ghost predicate Sharp(es: seq<Event>, start: int, end: int)
  {
    if start <= end then LandsFirst(es, start) && LandsLast(es, end)
    else LandsFirst(es, start) || exists i :: 0 <= i < |es| && end <= es[i].at < start
  }

  ghost predicate ExactEvents(es: seq<Event>, start: int, end: int)
  {
    Slice(es, Lands(es, start), Lands(es, end) + 1) == Within(es, start, end) + Extra(es, start, end)
  }

  lemma FirstAndLast(es: seq<Event>, key: int, a: nat, b: nat)
    requires Block(es, key, a, b)
    ensures var k := Lands(es, key);
            && a <= b <= |es| && (if a < b then a <= k < b else k == a)
            && (LandsFirst(es, key) <==> k == a) && (LandsLast(es, key) <==> k + 1 >= b)
  {
    LandsInBlock(es, key, a, b, 0, |es| - 1);
    hide Landing;
    var k := Lands(es, key);
    assert a < k ==> es[a].at == key;
    assert k + 1 < b ==> es[k + 1].at == key;
  }

  lemma SharpWindow(es: seq<Event>, start: int, end: int, a: nat, b: nat, c: nat, d: nat)
    requires Block(es, start, a, b) && Block(es, end, c, d) && start <= end
    ensures ExactEvents(es, start, end) <==> Sharp(es, start, end)
  {
    hide Filter, Landing, Lands, Block, LandsFirst, LandsLast, Within, Extra;
    FirstAndLast(es, start, a, b);
    FirstAndLast(es, end, c, d);
    BlocksOrdered(es, start, end, a, b, c, d);
    WithinIsSlice(es, start, end, a, b, c, d);
    ExtraOfBlock(es, start, end, c, d);
    var s, e := Lands(es, start), Lands(es, end);
    if c < d {
      SameSlice(es, s, e + 1, a, d);
    } else if c < |es| {
      assert es[a..d] + [es[c]] == es[a..c + 1];
      SameSlice(es, s, c + 1, a, c + 1);
    } else {
      SameSlice(es, s, c, a, c);
    }
  }

  lemma ExtraOfBlock(es: seq<Event>, start: int, end: int, c: nat, d: nat)
    requires Block(es, end, c, d)
    ensures Extra(es, start, end) == if c == d < |es| && start <= es[c].at then [es[c]] else []
    ensures start <= end && c < |es| ==> start <= es[c].at
  {
    hide Filter;
    AtIsBlock(es, end, c, d);
    assert c < |es| ==> es[c..][0] == es[c];
  }

  lemma SameSlice(es: seq<Event>, s: nat, t: nat, a: nat, d: nat)
    requires a <= s <= t <= d <= |es|
    ensures es[s..t] == es[a..d] <==> s == a && t == d
  {
    assert |es[s..t]| == t - s && |es[a..d]| == d - a;
  }

  lemma InvertedWindow(es: seq<Event>, start: int, end: int, a: nat, b: nat, c: nat, d: nat)
    requires Block(es, start, a, b) && Block(es, end, c, d) && start > end
    ensures ExactEvents(es, start, end) <==> Sharp(es, start, end)
  {
    hide Filter, Landing, Lands;
    WithinIsSlice(es, start, end, a, b, c, d);
    FirstAndLast(es, start, a, b);
    FirstAndLast(es, end, c, d);
    AtIsBlock(es, end, c, d);
    assert c < a ==> end <= es[c].at < start;
  }

  /** For every list in ascending order and every window: the answer is the filter and the next event
      exactly when the searches are sharp. */
  lemma EventsExactlyWhen(es: seq<Event>, start: int, end: int)
    requires Ascending(es)
    ensures ExactEvents(es, start, end) <==> Sharp(es, start, end)
  {
    hide Filter, Landing, Lands;
    var a, b := FindBlock(es, start);
    var c, d := FindBlock(es, end);
    if start <= end {
      SharpWindow(es, start, end, a, b, c, d);
    } else {
      InvertedWindow(es, start, end, a, b, c, d);
    }
  }

  lemma SingleBlock(es: seq<Event>, key: int, a: nat, b: nat)
    requires Increasing(es) && Block(es, key, a, b)
    ensures b <= a + 1
  {
    assert a + 1 < |es| ==> es[a].at < es[a + 1].at;
  }

  lemma IncreasingIsSharp(es: seq<Event>, start: int, end: int)
    requires Increasing(es)
    ensures Sharp(es, start, end)
  {
    hide Filter, Landing, Lands;
    var a, b := FindBlock(es, start);
    var c, d := FindBlock(es, end);
    FirstAndLast(es, start, a, b);
    FirstAndLast(es, end, c, d);
    SingleBlock(es, start, a, b);
    SingleBlock(es, end, c, d);
  }

  /** All windows are answered with the filter and the next event exactly when no two events have the
      same time. */
  lemma AlwaysExactWhenIncreasing(es: seq<Event>)
    requires Ascending(es)
    ensures (forall start, end :: ExactEvents(es, start, end)) <==> Increasing(es)
  {
    hide Filter, Landing, Lands, ExactEvents;
    if Increasing(es) {
      forall start, end ensures ExactEvents(es, start, end) {
        EventsExactlyWhen(es, start, end);
        IncreasingIsSharp(es, start, end);
      }
    } else {
      var i, j :| 0 <= i < j < |es| && es[i].at >= es[j].at;
      var key := es[i].at;
      EventsExactlyWhen(es, key, key);
      assert !Sharp(es, key, key);
    }
  }

  /** Three events at one time: the window of just that time is answered with one of them. */
  lemma EqualTimesLoseEvents(x: int, y: int, z: int)
    ensures var es := [Event(5, x), Event(5, y), Event(5, z)];
            Within(es, 5, 5) == es && Slice(es, Lands(es, 5), Lands(es, 5) + 1) == [Event(5, y)]
  {
    var es := [Event(5, x), Event(5, y), Event(5, z)];
    FilterAll(es, InWindow(5, 5));
  }

  function Time(): Event -> int { (e: Event) => e.at }

  function DifferentTimes(): (Event, Event) -> bool { (a: Event, b: Event) => a.at != b.at }

  /** After sorting, the times increase exactly when no two events were added with the same time. */
  lemma IncreasingWhenDifferent(es: seq<Event>)
    ensures Ascending(SortBy(es, Time()))
    ensures Increasing(SortBy(es, Time())) <==> Pairwise(es, DifferentTimes())
  {
    var sorted := SortBy(es, Time());
    SortByOrdered(es, Time());
    PairwiseSorted(es, Time(), DifferentTimes());
    hide SortBy;
    assert forall i, j :: 0 <= i < j < |sorted| ==> Time()(sorted[i]) <= Time()(sorted[j]);
    assert Pairwise(sorted, DifferentTimes()) <==> Increasing(sorted) by {
      assert forall i, j :: 0 <= i < j < |sorted| ==> (DifferentTimes()(sorted[i], sorted[j]) <==> sorted[i].at < sorted[j].at);
    }
  }

  class TimelineEvent {
    var events: seq<Event>

    constructor ()
      ensures events == []
    {
      events := [];
    }

    method AddEvent(event: Event)
      modifies this
      ensures events == old(events) + [event]
    {
      events := events + [event];
    }

    /** Events at the same time stay in the order they were added. */
    method Sort()
      modifies this
      ensures events == SortBy(old(events), Time()) && Ascending(events)
      ensures Increasing(events) <==> Pairwise(old(events), DifferentTimes())
      ensures forall key :: Filter(events, At(key)) == Filter(old(events), At(key))
    {
      IncreasingWhenDifferent(events);
      forall key ensures Filter(SortBy(events, Time()), At(key)) == Filter(events, At(key)) {
        SortByStable(events, Time(), At(key));
      }
      events := SortBy(events, Time());
    }

    method Search(key: int) returns (index: nat)
      requires Ascending(events)
      ensures index == Lands(events, key) && Positioned(events, key, index)
    {
      var l, u := 0, |events| - 1;
      SearchMeans(events, key);
      while l <= u
        invariant 0 <= l <= |events| && -1 <= u < |events| && l <= u + 1
        invariant Landing(events, key, l, u) == Lands(events, key)
      {
        var i := (l + u) / 2;
        if key == events[i].at {
          return i;
        } else if key < events[i].at {
          u := i - 1;
        } else {
          l := i + 1;
        }
      }
      return l;
    }

    /** The events for a window: in a proper window none strictly inside is missed; the answer is exactly
        the events inside followed by at most the next one when the searches are sharp, in particular
        when no two events have the same time. */
    method GetEvents(start: int, end: int) returns (result: seq<Event>)
      requires Ascending(events)
      ensures Queried(events, start, end, result)
      ensures start < end ==> Members(events, start, end, result)
    {
      hide Lands, Positioned, Queried;
      var s := Search(start);
      var e := Search(end);
      result := Slice(events, s, e + 1);
      QueryAnswered(events, start, end);
      hide Members, Slice;
      if start < end { AnswerMembers(events, start, end, result); }
    }

    method GetEventsBounds(start: int, end: int) returns (lo: nat, hi: nat)
      requires Ascending(events)
      ensures Queried(events, start, end, Slice(events, lo, hi))
    {
      hide Lands, Positioned, Queried;
      var s := Search(start);
      var e := Search(end);
      lo, hi := s, e + 1;
      QueryAnswered(events, start, end);
    }
  }

  ghost predicate Queried(es: seq<Event>, start: int, end: int, result: seq<Event>)
  {
    && (start < end ==> Covers(es, start, end, result))
    && (result == Within(es, start, end) + Extra(es, start, end) <==> Sharp(es, start, end))
    && (Increasing(es) ==> result == Within(es, start, end) + Extra(es, start, end))
  }

  lemma QueryAnswered(es: seq<Event>, start: int, end: int)
    requires Ascending(es)
    ensures Queried(es, start, end, Slice(es, Lands(es, start), Lands(es, end) + 1))
  {
    hide Covers, Sharp, Within, Extra, Lands;
    if start < end { AnswerCovers(es, start, end); }
    EventsExactlyWhen(es, start, end);
    if Increasing(es) { IncreasingIsSharp(es, start, end); }
  }

  /** The members of an answer, in terms of their times alone. */
  ghost predicate Members(es: seq<Event>, start: int, end: int, result: seq<Event>)
  {
    && (forall e :: e in es && start < e.at < end ==> e in result)
    && (Increasing(es) ==> forall e :: e in es && start <= e.at <= end ==> e in result)
    && (forall i :: 0 <= i < |result| ==> result[i] in es && start <= result[i].at)
    && (forall i :: 0 <= i < |result| - 1 ==> result[i].at <= end)
  }

  lemma AnswerMembers(es: seq<Event>, start: int, end: int, result: seq<Event>)
    requires Queried(es, start, end, result) && start < end
    ensures Members(es, start, end, result)
  {
    hide Filter, Sharp, Extra, CoversWith;
    var pre, post :| CoversWith(es, start, end, result, pre, post);
    CoveredMembers(es, start, end, result, pre, post);
    if Increasing(es) {
      forall e | e in es && start <= e.at <= end ensures e in result { FilterMember(es, InWindow(start, end), e); }
    }
  }

  lemma CoveredMembers(es: seq<Event>, start: int, end: int, result: seq<Event>, pre: seq<Event>, post: seq<Event>)
    requires CoversWith(es, start, end, result, pre, post) && start < end
    ensures forall e :: e in es && start < e.at < end ==> e in result
    ensures forall i :: 0 <= i < |result| ==> result[i] in es && start <= result[i].at
    ensures forall i :: 0 <= i < |result| - 1 ==> result[i].at <= end
  {
    hide Filter, IsSuffix, IsFollowUp;
    var mid := Filter(es, Inside(start, end));
    forall e ensures e in mid <==> e in es && start < e.at < end { FilterMember(es, Inside(start, end), e); }
    StartMembers(es, start, pre);
    FollowUpMembers(es, end, post);
    InOrder(pre, mid, post, start, end, es);
  }

  lemma StartMembers(es: seq<Event>, start: int, pre: seq<Event>)
    requires IsSuffix(pre, Filter(es, At(start)))
    ensures forall e :: e in pre ==> e in es && e.at == start
  {
    hide Filter;
    forall e | e in pre ensures e in es && e.at == start { FilterMember(es, At(start), e); }
  }

  lemma InOrder(pre: seq<Event>, mid: seq<Event>, post: seq<Event>, start: int, end: int, es: seq<Event>)
    requires start < end
    requires forall e :: e in pre ==> e in es && e.at == start
    requires forall e :: e in mid ==> e in es && start < e.at < end
    requires forall e :: e in post ==> e in es && end <= e.at
    requires forall i :: 0 <= i < |post| - 1 ==> post[i].at == end
    ensures var all := pre + mid + post;
            && (forall i :: 0 <= i < |all| ==> all[i] in es && start <= all[i].at)
            && (forall i :: 0 <= i < |all| - 1 ==> all[i].at <= end)
  {
    var all, n := pre + mid + post, |pre| + |mid|;
    forall i | 0 <= i < |all|
      ensures all[i] in es && start <= all[i].at
      ensures i < |all| - 1 ==> all[i].at <= end
    {
      assert all[i] == if i < |pre| then pre[i] else if i < n then mid[i - |pre|] else post[i - n];
    }
  }

  lemma FollowUpMembers(es: seq<Event>, end: int, post: seq<Event>)
    requires IsFollowUp(es, end, post)
    ensures forall e :: e in post ==> e in es && end <= e.at
    ensures forall i :: 0 <= i < |post| - 1 ==> post[i].at == end
  {
    hide Filter;
    var there, rest := Filter(es, At(end)), Filter(es, NotBefore(end));
    forall e ensures e in there <==> e in es && e.at == end { FilterMember(es, At(end), e); }
    forall e ensures e in rest <==> e in es && end <= e.at { FilterMember(es, NotBefore(end), e); }
    assert there != [] ==> forall i :: 0 <= i < |post| ==> post[i] == there[i];
  }

  /** From empty: add events in any order, sort, ask. */
  method QueryEvents(added: seq<Event>, start: int, end: int) returns (result: seq<Event>)
    ensures var es := SortBy(added, Time());
            && Queried(es, start, end, result)
            && (Pairwise(added, DifferentTimes()) ==> result == Within(es, start, end) + Extra(es, start, end))
  {
    hide Queried, Within, Extra;
    var timeline := new TimelineEvent();
    for i := 0 to |added|
      invariant fresh(timeline) && timeline.events == added[..i]
    {
      timeline.AddEvent(added[i]);
    }
    assert added[..|added|] == added;
    timeline.Sort();
    result := timeline.GetEvents(start, end);
    QueriedIncreasing(timeline.events, start, end, result);
  }

  lemma QueriedIncreasing(es: seq<Event>, start: int, end: int, result: seq<Event>)
    requires Queried(es, start, end, result)
    ensures Increasing(es) ==> result == Within(es, start, end) + Extra(es, start, end)
  {
  }
}
