/** The depth-first search for configuration paths: what it records, in which order, and why it ends
    on cyclic type graphs. */
module PathSearch {
  import opened TypeGraph
  import opened Sequences

  // ---------------------------------------------------------------- why the search ends

  ghost function Unused(db: Database, stack: seq<TypeId>): set<TypeId>
  {
    set t | 0 <= t < |db.types| && t !in stack
  }

  lemma PushUses(db: Database, stack: seq<TypeId>, t: TypeId)
    requires t < |db.types| && t !in stack
    ensures |Unused(db, stack + [t])| < |Unused(db, stack)|
  {
    assert Unused(db, stack) == Unused(db, stack + [t]) + {t};
  }

  ghost predicate ValidEdges(db: Database, es: seq<Edge>)
  {
    forall k :: 0 <= k < |es| ==> es[k].target < |db.types|
  }

  // ---------------------------------------------------------------- what the search records

  /** The entries the search appends when it enters `root` with the given stack and path. */
  ghost function Paths(db: Database, stack: seq<TypeId>, path: seq<string>, root: TypeId): seq<(TypeId, string)>
    requires db.Valid() && root < |db.types|
    decreases |Unused(db, stack)|, 0
  {
    if root in stack then []
    else
      PushUses(db, stack, root);
      [(root, PathText(path))] + PathsVia(db, stack + [root], path, Edges(db, root))
  }

  /** The entries appended while following the edges `es`. */
  ghost function PathsVia(db: Database, stack: seq<TypeId>, path: seq<string>, es: seq<Edge>): seq<(TypeId, string)>
    requires db.Valid() && ValidEdges(db, es)
    decreases |Unused(db, stack)|, |es| + 1
  {
    if es == [] then []
    else
      var n := |es| - 1;
      PathsVia(db, stack, path, es[..n]) + Paths(db, stack, path + [es[n].segment], es[n].target)
  }

  lemma PathsViaSnoc(db: Database, stack: seq<TypeId>, path: seq<string>, es: seq<Edge>, e: Edge)
    requires db.Valid() && ValidEdges(db, es) && e.target < |db.types|
    ensures ValidEdges(db, es + [e])
    ensures PathsVia(db, stack, path, es + [e])
         == PathsVia(db, stack, path, es) + Paths(db, stack, path + [e.segment], e.target)
  {
    assert (es + [e])[..|es|] == es;
  }

  // ---------------------------------------------------------------- the walks, listed

  ghost function Prefixed(k: nat, ws: seq<Walk>): seq<Walk>
  {
    seq(|ws|, i requires 0 <= i < |ws| => [k] + ws[i])
  }

  ghost function Walks(db: Database, stack: seq<TypeId>, root: TypeId): seq<Walk>
    requires db.Valid() && root < |db.types|
    decreases |Unused(db, stack)|, 0
  {
    if root in stack then []
    else
      PushUses(db, stack, root);
      [[]] + WalksVia(db, stack + [root], Edges(db, root), |Edges(db, root)|)
  }

  ghost function WalksVia(db: Database, stack: seq<TypeId>, es: seq<Edge>, n: nat): seq<Walk>
    requires db.Valid() && ValidEdges(db, es) && n <= |es|
    decreases |Unused(db, stack)|, n + 1
  {
    if n == 0 then []
    else WalksVia(db, stack, es, n - 1) + Prefixed(n - 1, Walks(db, stack, es[n - 1].target))
  }

  // ---------------------------------------------------------------- every listed walk is simple

  lemma ExtendSimple(db: Database, stack: seq<TypeId>, root: TypeId, w: Walk)
    requires db.Valid() && root < |db.types| && root !in stack
    requires w != [] && w[0] < |Edges(db, root)|
    requires SimpleWalk(db, stack + [root], Edges(db, root)[w[0]].target, w[1..])
    ensures SimpleWalk(db, stack, root, w)
  {
    var rest := Visited(db, Edges(db, root)[w[0]].target, w[1..]);
    assert Visited(db, root, w) == [root] + rest;
    assert root in stack + [root];
    forall i | 0 <= i < |rest| ensures rest[i] != root && rest[i] !in stack {
      assert rest[i] !in stack + [root];
    }
  }

  lemma ShrinkSimple(db: Database, stack: seq<TypeId>, root: TypeId, w: Walk)
    requires db.Valid() && root < |db.types| && SimpleWalk(db, stack, root, w)
    ensures root !in stack
    ensures w != [] ==> w[0] < |Edges(db, root)|
    ensures w != [] ==> SimpleWalk(db, stack + [root], Edges(db, root)[w[0]].target, w[1..])
  {
    var all := Visited(db, root, w);
    assert all[0] == root;
    if w != [] {
      var rest := Visited(db, Edges(db, root)[w[0]].target, w[1..]);
      assert all == [root] + rest;
      forall i | 0 <= i < |rest| ensures rest[i] !in stack + [root] {
        assert rest[i] == all[i + 1];
      }
      forall i, j | 0 <= i < j < |rest| ensures rest[i] != rest[j] {
        assert rest[i] == all[i + 1] && rest[j] == all[j + 1];
      }
    }
  }

  lemma {:induction false} WalksSound(db: Database, stack: seq<TypeId>, root: TypeId, w: Walk)
    requires db.Valid() && root < |db.types| && w in Walks(db, stack, root)
    ensures SimpleWalk(db, stack, root, w)
    decreases |Unused(db, stack)|, 0
  {
    PushUses(db, stack, root);
    if w != [] {
      WalksViaSound(db, stack + [root], Edges(db, root), |Edges(db, root)|, w);
      ExtendSimple(db, stack, root, w);
    }
  }

  lemma {:induction false} WalksViaSound(db: Database, stack: seq<TypeId>, es: seq<Edge>, n: nat, w: Walk)
    requires db.Valid() && ValidEdges(db, es) && n <= |es| && w in WalksVia(db, stack, es, n)
    ensures w != [] && w[0] < n && SimpleWalk(db, stack, es[w[0]].target, w[1..])
    decreases |Unused(db, stack)|, n + 1
  {
    hide Walks, SimpleWalk;
    var last := Walks(db, stack, es[n - 1].target);
    if w in Prefixed(n - 1, last) {
      var i :| 0 <= i < |last| && w == [n - 1] + last[i];
      assert w[1..] == last[i];
      WalksSound(db, stack, es[n - 1].target, last[i]);
    } else {
      WalksViaSound(db, stack, es, n - 1, w);
    }
  }

  // ---------------------------------------------------------------- every simple walk is listed

  lemma {:induction false} WalksComplete(db: Database, stack: seq<TypeId>, root: TypeId, w: Walk)
    requires db.Valid() && root < |db.types| && SimpleWalk(db, stack, root, w)
    ensures w in Walks(db, stack, root)
    decreases |w|
  {
    ShrinkSimple(db, stack, root, w);
    var es := Edges(db, root);
    if w == [] {
      assert Walks(db, stack, root)[0] == [];
    } else {
      WalksComplete(db, stack + [root], es[w[0]].target, w[1..]);
      ListedVia(db, stack + [root], es, |es|, w[0], w[1..]);
      assert w == [w[0]] + w[1..];
    }
  }

  lemma InPrefixed(k: nat, ws: seq<Walk>, v: Walk)
    requires v in ws
    ensures [k] + v in Prefixed(k, ws)
  {
    var i :| 0 <= i < |ws| && ws[i] == v;
    assert Prefixed(k, ws)[i] == [k] + v;
  }

  lemma {:induction false} ListedVia(db: Database, stack: seq<TypeId>, es: seq<Edge>, n: nat, k: nat, v: Walk)
    requires db.Valid() && ValidEdges(db, es) && k < n <= |es|
    requires v in Walks(db, stack, es[k].target)
    ensures [k] + v in WalksVia(db, stack, es, n)
    decreases n
  {
    hide Walks, Prefixed;
    var front, last := WalksVia(db, stack, es, n - 1), Prefixed(n - 1, Walks(db, stack, es[n - 1].target));
    if k == n - 1 {
      InPrefixed(k, Walks(db, stack, es[k].target), v);
      assert [k] + v in last;
    } else {
      ListedVia(db, stack, es, n - 1, k, v);
      assert [k] + v in front;
    }
    assert WalksVia(db, stack, es, n) == front + last;
  }

  // ---------------------------------------------------------------- in discovery order, once each

  ghost predicate Ordered(ws: seq<Walk>)
  {
    forall i, j :: 0 <= i < j < |ws| ==> Before(ws[i], ws[j])
  }

  lemma {:induction false} WalksOrdered(db: Database, stack: seq<TypeId>, root: TypeId)
    requires db.Valid() && root < |db.types|
    ensures Ordered(Walks(db, stack, root))
    decreases |Unused(db, stack)|, 0
  {
    if root !in stack {
      PushUses(db, stack, root);
      var es := Edges(db, root);
      var via := WalksVia(db, stack + [root], es, |es|);
      WalksViaOrdered(db, stack + [root], es, |es|);
      forall j | 0 <= j < |via| ensures Before([], via[j]) {
        WalksViaSound(db, stack + [root], es, |es|, via[j]);
      }
    }
  }

  lemma {:induction false} WalksViaOrdered(db: Database, stack: seq<TypeId>, es: seq<Edge>, n: nat)
    requires db.Valid() && ValidEdges(db, es) && n <= |es|
    ensures Ordered(WalksVia(db, stack, es, n))
    decreases |Unused(db, stack)|, n + 1
  {
    hide Walks, SimpleWalk;
    if n > 0 {
      var front := WalksVia(db, stack, es, n - 1);
      var last := Walks(db, stack, es[n - 1].target);
      WalksViaOrdered(db, stack, es, n - 1);
      WalksOrdered(db, stack, es[n - 1].target);
      forall i, j | 0 <= i < j < |last| ensures Before([n - 1] + last[i], [n - 1] + last[j]) {
        assert ([n - 1] + last[i])[1..] == last[i] && ([n - 1] + last[j])[1..] == last[j];
      }
      forall i | 0 <= i < |front| ensures front[i] != [] && front[i][0] < n - 1 {
        WalksViaSound(db, stack, es, n - 1, front[i]);
      }
    }
  }

  lemma {:induction false} BeforeIsStrict(a: Walk, b: Walk)
    requires Before(a, b)
    ensures a != b
  {
    if a != [] && a[0] == b[0] {
      BeforeIsStrict(a[1..], b[1..]);
    }
  }

  // ---------------------------------------------------------------- the entries are those of the walks

  ghost function Entries(db: Database, path: seq<string>, root: TypeId, ws: seq<Walk>): seq<(TypeId, string)>
    requires db.Valid() && root < |db.types|
    requires AllWalks(db, root, ws)
  {
    seq(|ws|, i requires 0 <= i < |ws| => Entry(db, path, root, ws[i]))
  }

  lemma EntryAfterEdge(db: Database, path: seq<string>, root: TypeId, k: nat, v: Walk)
    requires db.Valid() && root < |db.types| && k < |Edges(db, root)|
    requires IsWalk(db, Edges(db, root)[k].target, v)
    ensures IsWalk(db, root, [k] + v)
    ensures Entry(db, path, root, [k] + v)
         == Entry(db, path + [Edges(db, root)[k].segment], Edges(db, root)[k].target, v)
  {
    var e := Edges(db, root)[k];
    var w := [k] + v;
    hide Edges, PathText;
    assert w[1..] == v;
    Associative(path, [e.segment], Segments(db, e.target, v));
  }

  lemma {:induction false} PathsAreEntries(db: Database, stack: seq<TypeId>, path: seq<string>, root: TypeId)
    requires db.Valid() && root < |db.types|
    ensures AllWalks(db, root, Walks(db, stack, root))
    ensures Paths(db, stack, path, root) == Entries(db, path, root, Walks(db, stack, root))
    decreases |Unused(db, stack)|, 0
  {
    var ws := Walks(db, stack, root);
    forall i | 0 <= i < |ws| ensures IsWalk(db, root, ws[i]) {
      WalksSound(db, stack, root, ws[i]);
    }
    if root !in stack {
      PushUses(db, stack, root);
      var n := |Edges(db, root)|;
      var via := WalksVia(db, stack + [root], Edges(db, root), n);
      assert path + Segments(db, root, []) == path;
      assert Edges(db, root)[..n] == Edges(db, root);
      PathsViaAreEntries(db, stack + [root], path, root, n);
      assert AllWalks(db, root, [[]]);
      EntriesConcat(db, path, root, [[]], via);
      assert Entries(db, path, root, [[]]) == [(root, PathText(path))];
    }
  }

  ghost predicate AllWalks(db: Database, root: TypeId, ws: seq<Walk>)
    requires db.Valid() && root < |db.types|
  {
    forall i :: 0 <= i < |ws| ==> IsWalk(db, root, ws[i])
  }

  lemma EntriesPrefixed(db: Database, path: seq<string>, root: TypeId, k: nat, ws: seq<Walk>)
    requires db.Valid() && root < |db.types| && k < |Edges(db, root)|
    requires AllWalks(db, Edges(db, root)[k].target, ws)
    ensures AllWalks(db, root, Prefixed(k, ws))
    ensures Entries(db, path, root, Prefixed(k, ws))
         == Entries(db, path + [Edges(db, root)[k].segment], Edges(db, root)[k].target, ws)
  {
    forall i | 0 <= i < |ws|
      ensures IsWalk(db, root, Prefixed(k, ws)[i])
      ensures Entry(db, path, root, Prefixed(k, ws)[i])
           == Entry(db, path + [Edges(db, root)[k].segment], Edges(db, root)[k].target, ws[i])
    {
      EntryAfterEdge(db, path, root, k, ws[i]);
    }
  }

  lemma EntriesConcat(db: Database, path: seq<string>, root: TypeId, a: seq<Walk>, b: seq<Walk>)
    requires db.Valid() && root < |db.types| && AllWalks(db, root, a) && AllWalks(db, root, b)
    ensures AllWalks(db, root, a + b)
    ensures Entries(db, path, root, a + b) == Entries(db, path, root, a) + Entries(db, path, root, b)
  {
    hide IsWalk, Entry;
    var c := a + b;
    assert forall i :: 0 <= i < |c| ==> c[i] == if i < |a| then a[i] else b[i - |a|];
  }

  lemma NoEntries(db: Database, stack: seq<TypeId>, path: seq<string>, root: TypeId)
    requires db.Valid() && root < |db.types|
    ensures PathsVia(db, stack, path, Edges(db, root)[..0]) == [] == Entries(db, path, root, [])
  {
  }

  lemma {:induction false} PathsViaAreEntries(db: Database, stack: seq<TypeId>, path: seq<string>, root: TypeId, n: nat)
    requires db.Valid() && root < |db.types| && n <= |Edges(db, root)|
    ensures var ws := WalksVia(db, stack, Edges(db, root), n);
            AllWalks(db, root, ws) && PathsVia(db, stack, path, Edges(db, root)[..n]) == Entries(db, path, root, ws)
    decreases |Unused(db, stack)|, n + 1
  {
    hide Walks, Paths, Entries, Prefixed, Edges;
    if n == 0 {
      NoEntries(db, stack, path, root);
    } else {
      var es := Edges(db, root);
      var e := es[n - 1];
      var front, last := WalksVia(db, stack, es, n - 1), Walks(db, stack, e.target);
      assert es[..n][..n - 1] == es[..n - 1];
      PathsViaAreEntries(db, stack, path, root, n - 1);
      PathsAreEntries(db, stack, path + [e.segment], e.target);
      EntriesPrefixed(db, path, root, n - 1, last);
      EntriesConcat(db, path, root, front, Prefixed(n - 1, last));
    }
  }

  // ---------------------------------------------------------------- the main result

  /** Entering `root` with an empty stack records exactly one entry, with the end type and the path
      text, for each walk from `root` that repeats no type - walks along different edges count
      separately - in depth-first order. */
  lemma SearchIsExact(db: Database, root: TypeId)
    requires db.Valid() && root < |db.types|
    ensures var ws := Walks(db, [], root);
            && (forall w :: w in ws <==> SimpleWalk(db, [], root, w))
            && Distinct(ws)
            && Ordered(ws)
            && AllWalks(db, root, ws)
            && Paths(db, [], [], root) == Entries(db, [], root, ws)
  {
    var ws := Walks(db, [], root);
    forall w ensures w in ws <==> SimpleWalk(db, [], root, w) {
      if w in ws { WalksSound(db, [], root, w); }
      if SimpleWalk(db, [], root, w) { WalksComplete(db, [], root, w); }
    }
    WalksOrdered(db, [], root);
    forall i, j | 0 <= i < j < |ws| ensures ws[i] != ws[j] {
      BeforeIsStrict(ws[i], ws[j]);
    }
    PathsAreEntries(db, [], [], root);
  }

  lemma DistinctCut(s: seq<TypeId>, k: nat)
    requires Distinct(s) && k < |s|
    ensures Distinct(Cut(s, k))
    ensures forall i :: 0 <= i < |s| - 1 ==> Cut(s, k)[i] != s[k] && Cut(s, k)[i] in s
  {
    var rest := Cut(s, k);
    assert forall i :: 0 <= i < |rest| ==> rest[i] == if i < k then s[i] else s[i + 1];
  }

  lemma {:induction false} DistinctBounded(s: seq<TypeId>, n: nat)
    requires Distinct(s) && forall i :: 0 <= i < |s| ==> s[i] < n
    ensures |s| <= n
    decreases n
  {
    assert s != [] ==> s[0] < n;
    if n > 0 {
      if k :| 0 <= k < |s| && s[k] == n - 1 {
        DistinctCut(s, k);
        var rest := Cut(s, k);
        assert forall i :: 0 <= i < |rest| ==> rest[i] != s[k] && rest[i] < n;
        DistinctBounded(rest, n - 1);
      } else {
        DistinctBounded(s, n - 1);
      }
    }
  }

  lemma {:induction false} VisitedLength(db: Database, root: TypeId, w: Walk)
    requires db.Valid() && root < |db.types| && IsWalk(db, root, w)
    ensures |Visited(db, root, w)| == |w| + 1
    ensures forall i :: 0 <= i < |Visited(db, root, w)| ==> Visited(db, root, w)[i] < |db.types|
    decreases |w|
  {
    if w != [] { VisitedLength(db, Edges(db, root)[w[0]].target, w[1..]); }
  }

  /** However cyclic the type graph, no recorded path follows as many edges as there are types. */
  lemma PathsAreShort(db: Database, root: TypeId, w: Walk)
    requires db.Valid() && root < |db.types| && w in Walks(db, [], root)
    ensures |w| < |db.types|
  {
    WalksSound(db, [], root, w);
    VisitedLength(db, root, w);
    DistinctBounded(Visited(db, root, w), |db.types|);
  }
}
