/** `StaticInformation`: the object that holds the search's path, stack and output and changes them in
    place. Its recursion is proved against the specification of `PathSearch`. */
module StaticInformation {
  import opened TypeGraph
  import opened PathSearch
  import opened Sequences

  /** The second components of the entries for `t`, in order. */
  function PathsTo(output: seq<(TypeId, string)>, t: TypeId): seq<string>
  {
    if output == [] then []
    else
      var n := |output| - 1;
      PathsTo(output[..n], t) + (if output[n].0 == t then [output[n].1] else [])
  }

  /** What gathering the roots one after the other records. */
  ghost function Gathered(db: Database, roots: seq<TypeId>): seq<(TypeId, string)>
    requires db.Valid() && forall k :: 0 <= k < |roots| ==> roots[k] < |db.types|
  {
    if roots == [] then []
    else Gathered(db, roots[..|roots| - 1]) + Paths(db, [], [], roots[|roots| - 1])
  }

  lemma GatheredNext(db: Database, roots: seq<TypeId>, i: nat)
    requires db.Valid() && i < |roots| && forall k :: 0 <= k < |roots| ==> roots[k] < |db.types|
    ensures Gathered(db, roots[..i + 1]) == Gathered(db, roots[..i]) + Paths(db, [], [], roots[i])
  {
    assert roots[..i + 1][..i] == roots[..i];
  }

  class Info {
    const db: Database
    var output: seq<(TypeId, string)>
    var currentPath: seq<string>
    var alreadyProcessed: seq<TypeId>

    /** The stack never holds a type twice. */
    ghost predicate Valid()
      reads this
    {
      db.Valid() && Distinct(alreadyProcessed)
    }

    constructor (db: Database)
      requires db.Valid()
      ensures Valid() && this.db == db
      ensures output == [] && currentPath == [] && alreadyProcessed == []
    {
      this.db := db;
      output, currentPath, alreadyProcessed := [], [], [];
    }

    method GetCurrentPath() returns (text: string)
      ensures text == PathText(currentPath)
    {
      text := "";
      for i := 0 to |currentPath|
        invariant text == PathText(currentPath[..i])
      {
        assert currentPath[..i + 1][..i] == currentPath[..i];
        text := text + "/" + currentPath[i];
      }
      assert currentPath[..|currentPath|] == currentPath;
    }

    method RecordOutput(tid: TypeId)
      modifies this`output
      ensures output == old(output) + [(tid, PathText(currentPath))]
    {
      var text := GetCurrentPath();
      output := output + [(tid, text)];
    }

    method HasAlreadyBeenProcessed(tid: TypeId) returns (found: bool)
      ensures found <==> tid in alreadyProcessed
    {
      for i := 0 to |alreadyProcessed|
        invariant tid !in alreadyProcessed[..i]
      {
        if alreadyProcessed[i] == tid {
          return true;
        }
      }
      return false;
    }

    method Get(tid: TypeId) returns (paths: seq<string>)
      ensures paths == PathsTo(output, tid)
    {
      paths := [];
      for i := 0 to |output|
        invariant paths == PathsTo(output[..i], tid)
      {
        assert output[..i + 1][..i] == output[..i];
        if output[i].0 == tid {
          paths := paths + [output[i].1];
        }
      }
      assert output[..|output|] == output;
    }

    /** What following the edges `es` out of `tid` has added to the output. */
    ghost predicate Followed(tid: TypeId, before: seq<(TypeId, string)>, es: seq<Edge>)
      reads this
    {
      db.Valid() && ValidEdges(db, es)
      && output == before + PathsVia(db, alreadyProcessed + [tid], currentPath, es)
    }

    /** Follows one edge: push, recurse, pop. */
    method Follow(tid: TypeId, e: Edge, ghost before: seq<(TypeId, string)>, ghost es: seq<Edge>)
      requires Valid() && tid < |db.types| && tid !in alreadyProcessed && e.target < |db.types|
      requires Followed(tid, before, es)
      modifies this
      ensures currentPath == old(currentPath) && alreadyProcessed == old(alreadyProcessed)
      ensures Followed(tid, before, es + [e])
      decreases |Unused(db, alreadyProcessed)|, 0
    {
      PushUses(db, alreadyProcessed, tid);
      ghost var stack := alreadyProcessed + [tid];
      PathsViaSnoc(db, stack, currentPath, es, e);
      Associative(before, PathsVia(db, stack, currentPath, es), Paths(db, stack, currentPath + [e.segment], e.target));
      assert stack[..|alreadyProcessed|] == alreadyProcessed;
      assert (currentPath + [e.segment])[..|currentPath|] == currentPath;
      currentPath := currentPath + [e.segment];
      alreadyProcessed := alreadyProcessed + [tid];
      DoGather(e.target);
      alreadyProcessed := alreadyProcessed[..|alreadyProcessed| - 1];
      currentPath := currentPath[..|currentPath| - 1];
    }

    lemma FollowedNothing(tid: TypeId)
      requires db.Valid()
      ensures Followed(tid, output, [])
    {
      assert PathsVia(db, alreadyProcessed + [tid], currentPath, []) == [];
      assert output + [] == output;
    }

    method FollowAttributes(tid: TypeId)
      requires Valid() && tid < |db.types| && tid !in alreadyProcessed
      modifies this
      ensures currentPath == old(currentPath) && alreadyProcessed == old(alreadyProcessed)
      ensures Followed(tid, old(output), AttributesUpTo(db, tid, |db.types[tid].attributes|))
      decreases |Unused(db, alreadyProcessed)|, 2
    {
      hide Followed, PathsVia, PathText, Paths, AttributesUpTo, AttributeEdges, Distinct, Unused;
      FollowedNothing(tid);
      NoAttributes(db, tid);
      ghost var es: seq<Edge> := [];
      for i := 0 to |db.types[tid].attributes|
        invariant currentPath == old(currentPath) && alreadyProcessed == old(alreadyProcessed)
        invariant es == AttributesUpTo(db, tid, i) && Followed(tid, old(output), es)
      {
        var info := db.types[tid].attributes[i];
        AttributesNext(db, tid, i);
        FollowAttribute(tid, info, old(output), es);
        es := es + AttributeEdges(db, info);
      }
    }

    method FollowAttribute(tid: TypeId, info: Attribute, ghost before: seq<(TypeId, string)>, ghost es: seq<Edge>)
      requires Valid() && tid < |db.types| && tid !in alreadyProcessed && db.ValidChecker(info.checker)
      requires Followed(tid, before, es)
      modifies this
      ensures currentPath == old(currentPath) && alreadyProcessed == old(alreadyProcessed)
      ensures Followed(tid, before, es + AttributeEdges(db, info))
      decreases |Unused(db, alreadyProcessed)|, 1
    {
      hide Followed;
      assert es + [] == es;
      match info.checker {
        case PointerTo(pointee) =>
          if pointee != db.objectId {
            Follow(tid, Edge(info.name, pointee), before, es);
          }
        case ContainerOf(item) =>
          Follow(tid, Edge(info.name + "/[i]", item), before, es);
        case OtherChecker =>
      }
    }

    method FollowChildren(tid: TypeId, ghost before: seq<(TypeId, string)>, ghost first: seq<Edge>)
      requires Valid() && tid < |db.types| && tid !in alreadyProcessed && Followed(tid, before, first)
      modifies this
      ensures currentPath == old(currentPath) && alreadyProcessed == old(alreadyProcessed)
      ensures Followed(tid, before, first + ChildrenUpTo(db, tid, |db.types|))
      decreases |Unused(db, alreadyProcessed)|, 1
    {
      hide Followed, PathsVia, PathText, Paths;
      ghost var es: seq<Edge> := first;
      for j := 0 to |db.types|
        invariant currentPath == old(currentPath) && alreadyProcessed == old(alreadyProcessed)
        invariant es == first + ChildrenUpTo(db, tid, j) && Followed(tid, before, es)
      {
        assert es + [] == es;
        Associative(first, ChildrenUpTo(db, tid, j), ChildEdges(db, tid, j));
        if (j, tid) in db.childOf {
          Follow(tid, Edge("$" + db.types[j].name, j), before, es);
        }
        es := es + ChildEdges(db, tid, j);
      }
    }

    method FollowAggregates(tid: TypeId, ghost before: seq<(TypeId, string)>, ghost first: seq<Edge>)
      requires Valid() && tid < |db.types| && tid !in alreadyProcessed && Followed(tid, before, first)
      modifies this
      ensures currentPath == old(currentPath) && alreadyProcessed == old(alreadyProcessed)
      ensures Followed(tid, before, first + AggregatesUpTo(db, tid, |db.aggregates|))
      decreases |Unused(db, alreadyProcessed)|, 1
    {
      hide Followed, PathsVia, PathText, Paths;
      ghost var es: seq<Edge> := first;
      for k := 0 to |db.aggregates|
        invariant currentPath == old(currentPath) && alreadyProcessed == old(alreadyProcessed)
        invariant es == first + AggregatesUpTo(db, tid, k) && Followed(tid, before, es)
      {
        var item := db.aggregates[k];
        ghost var added := AggregateEdges(db, tid, item);
        Associative(first, AggregatesUpTo(db, tid, k), added);
        if item.0 == tid || item.1 == tid {
          var other := item.0;
          if item.0 == tid { other := item.1; }
          if item.1 == tid { other := item.0; }
          assert added == [Edge("$" + db.types[other].name, other)];
          Follow(tid, Edge("$" + db.types[other].name, other), before, es);
        } else {
          assert es + added == es;
        }
        es := es + added;
      }
    }

    /** The search proper. It ends on every type graph, leaves path and stack as they were and only
        appends to the output. */
    method DoGather(tid: TypeId)
      requires Valid() && tid < |db.types|
      modifies this
      ensures currentPath == old(currentPath) && alreadyProcessed == old(alreadyProcessed)
      ensures output == old(output) + Paths(db, alreadyProcessed, currentPath, tid)
      decreases |Unused(db, alreadyProcessed)|, 3
    {
      var seen := HasAlreadyBeenProcessed(tid);
      if seen {
        return;
      }
      hide PathsVia, PathText, AttributesUpTo, ChildrenUpTo, AggregatesUpTo;
      RecordOutput(tid);
      ghost var before := output;
      FollowAttributes(tid);
      ghost var es := AttributesUpTo(db, tid, |db.types[tid].attributes|);
      FollowChildren(tid, before, es);
      FollowAggregates(tid, before, es + ChildrenUpTo(db, tid, |db.types|));
      Associative(old(output), [(tid, PathText(currentPath))],
                  PathsVia(db, alreadyProcessed + [tid], currentPath, Edges(db, tid)));
    }

    /** `Uniquefy` gets a copy of the output, so gathering leaves every entry in place. */
    method Gather(tid: TypeId)
      requires Valid() && tid < |db.types|
      modifies this
      ensures currentPath == old(currentPath) && alreadyProcessed == old(alreadyProcessed)
      ensures output == old(output) + Paths(db, alreadyProcessed, currentPath, tid)
    {
      DoGather(tid);
    }

    /** Gathering several roots records the single-root results one after the other. */
    method GatherAll(roots: seq<TypeId>)
      requires Valid() && currentPath == [] && alreadyProcessed == []
      requires forall k :: 0 <= k < |roots| ==> roots[k] < |db.types|
      modifies this
      ensures currentPath == [] && alreadyProcessed == []
      ensures output == old(output) + Gathered(db, roots)
    {
      for i := 0 to |roots|
        invariant currentPath == [] && alreadyProcessed == []
        invariant output == old(output) + Gathered(db, roots[..i])
      {
        GatheredNext(db, roots, i);
        Associative(old(output), Gathered(db, roots[..i]), Paths(db, [], [], roots[i]));
        Gather(roots[i]);
      }
      assert roots[..|roots|] == roots;
    }
  }

  // ---------------------------------------------------------------- what `Get` returns

  /** The texts of those walks that end at `t`. */
  ghost function WalkTexts(db: Database, root: TypeId, ws: seq<Walk>, t: TypeId): seq<string>
    requires db.Valid() && root < |db.types| && AllWalks(db, root, ws)
  {
    if ws == [] then []
    else
      var n := |ws| - 1;
      WalkTexts(db, root, ws[..n], t)
      + (if EndOf(db, root, ws[n]) == t then [PathText(Segments(db, root, ws[n]))] else [])
  }

  lemma {:induction false} PathsToOfEntries(db: Database, root: TypeId, ws: seq<Walk>, t: TypeId)
    requires db.Valid() && root < |db.types| && AllWalks(db, root, ws)
    ensures PathsTo(Entries(db, [], root, ws), t) == WalkTexts(db, root, ws, t)
  {
    if ws != [] {
      var n := |ws| - 1;
      PathsToOfEntries(db, root, ws[..n], t);
      hide PathText, Segments, EndOf, IsWalk;
      assert Entries(db, [], root, ws)[..n] == Entries(db, [], root, ws[..n]);
      assert [] + Segments(db, root, ws[n]) == Segments(db, root, ws[n]);
    }
  }

  /** After gathering one root, asking for `t` gives the path texts of exactly the repetition-free
      walks that end at `t`, in the order the search found them. */
  lemma GetIsExact(db: Database, root: TypeId, t: TypeId)
    requires db.Valid() && root < |db.types|
    ensures AllWalks(db, root, Walks(db, [], root))
    ensures PathsTo(Paths(db, [], [], root), t) == WalkTexts(db, root, Walks(db, [], root), t)
  {
    SearchIsExact(db, root);
    PathsToOfEntries(db, root, Walks(db, [], root), t);
  }

  lemma {:induction false} PathsToConcat(a: seq<(TypeId, string)>, b: seq<(TypeId, string)>, t: TypeId)
    ensures PathsTo(a + b, t) == PathsTo(a, t) + PathsTo(b, t)
    decreases |b|
  {
    if b == [] {
      assert a + b == a;
    } else {
      var n := |b| - 1;
      PathsToConcat(a, b[..n], t);
      assert (a + b)[..|a + b| - 1] == a + b[..n];
    }
  }

  /** The texts of the walks from each root in turn that end at `t`. */
  ghost function RootTexts(db: Database, roots: seq<TypeId>, t: TypeId): seq<string>
    requires db.Valid() && forall k :: 0 <= k < |roots| ==> roots[k] < |db.types|
  {
    if roots == [] then []
    else
      var n := |roots| - 1;
      GetIsExact(db, roots[n], t);
      RootTexts(db, roots[..n], t) + WalkTexts(db, roots[n], Walks(db, [], roots[n]), t)
  }

  /** After gathering several roots, asking for `t` gives the walks of each root in turn. */
  lemma {:induction false} GetAfterGatherAll(db: Database, roots: seq<TypeId>, t: TypeId)
    requires db.Valid() && forall k :: 0 <= k < |roots| ==> roots[k] < |db.types|
    ensures PathsTo(Gathered(db, roots), t) == RootTexts(db, roots, t)
  {
    if roots != [] {
      var n := |roots| - 1;
      GetAfterGatherAll(db, roots[..n], t);
      GetIsExact(db, roots[n], t);
      PathsToConcat(Gathered(db, roots[..n]), Paths(db, [], [], roots[n]), t);
    }
  }

  /** Gathering the roots of the configuration namespace and asking for a type. */
  method ConfigurationPaths(db: Database, roots: seq<TypeId>, t: TypeId) returns (paths: seq<string>)
    requires db.Valid() && forall k :: 0 <= k < |roots| ==> roots[k] < |db.types|
    ensures paths == RootTexts(db, roots, t)
  {
    hide RootTexts, Gathered, PathsTo;
    var info := new Info(db);
    info.GatherAll(roots);
    assert [] + Gathered(db, roots) == Gathered(db, roots);
    paths := info.Get(t);
    GetAfterGatherAll(db, roots, t);
  }
}
