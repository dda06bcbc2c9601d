/** The part of the TypeId database that the configuration-path search reads, seen as a labelled
    graph, and the walks of that graph that repeat no type. */
module TypeGraph {
  import opened Sequences

  /** A TypeId is its position among the registered types. */
  type TypeId = nat

  datatype Checker = PointerTo(pointee: TypeId) | ContainerOf(item: TypeId) | OtherChecker

  datatype Attribute = Attribute(name: string, checker: Checker)

  datatype TypeInfo = TypeInfo(name: string, attributes: seq<Attribute>)

  /** `objectId` is the TypeId of `Object`; `childOf` holds the pairs (child, ancestor) of
      `IsChildOf`; `aggregates` are the recorded aggregations in order. */
  datatype Database = Database(
    types: seq<TypeInfo>,
    objectId: TypeId,
    childOf: set<(TypeId, TypeId)>,
    aggregates: seq<(TypeId, TypeId)>)
  {
    /** Every TypeId in sight is registered. */
    ghost predicate Valid()
    {
      && (forall t, i :: 0 <= t < |types| && 0 <= i < |types[t].attributes| ==>
            ValidChecker(types[t].attributes[i].checker))
      && (forall k :: 0 <= k < |aggregates| ==> aggregates[k].0 < |types| && aggregates[k].1 < |types|)
    }

    predicate ValidChecker(c: Checker)
    {
      match c
      case PointerTo(p) => p < |types|
      case ContainerOf(i) => i < |types|
      case OtherChecker => true
    }
  }

  /** One way to continue a path: the segment to append and the type it leads to. */
  datatype Edge = Edge(segment: string, target: TypeId)

  function AttributeEdges(db: Database, a: Attribute): seq<Edge>
  {
    match a.checker
    case PointerTo(p) => if p == db.objectId then [] else [Edge(a.name, p)]
    case ContainerOf(i) => [Edge(a.name + "/[i]", i)]
    case OtherChecker => []
  }

  function ChildEdges(db: Database, t: TypeId, child: TypeId): seq<Edge>
    requires child < |db.types|
  {
    if (child, t) in db.childOf then [Edge("$" + db.types[child].name, child)] else []
  }

  function AggregateEdges(db: Database, t: TypeId, pair: (TypeId, TypeId)): seq<Edge>
    requires pair.0 < |db.types| && pair.1 < |db.types|
  {
    if pair.1 == t then [Edge("$" + db.types[pair.0].name, pair.0)]
    else if pair.0 == t then [Edge("$" + db.types[pair.1].name, pair.1)]
    else []
  }

  /** The edges the first `n` attributes of a type give. */
  function AttributesUpTo(db: Database, t: TypeId, n: nat): (es: seq<Edge>)
    requires db.Valid() && t < |db.types| && n <= |db.types[t].attributes|
    ensures forall k :: 0 <= k < |es| ==> es[k].target < |db.types|
  {
    if n == 0 then []
    else
      assert db.ValidChecker(db.types[t].attributes[n - 1].checker);
      AttributesUpTo(db, t, n - 1) + AttributeEdges(db, db.types[t].attributes[n - 1])
  }

  lemma NoAttributes(db: Database, t: TypeId)
    requires db.Valid() && t < |db.types|
    ensures AttributesUpTo(db, t, 0) == []
  {
  }

  lemma AttributesNext(db: Database, t: TypeId, n: nat)
    requires db.Valid() && t < |db.types| && n < |db.types[t].attributes|
    ensures var a := db.types[t].attributes[n];
            db.ValidChecker(a.checker) && AttributesUpTo(db, t, n + 1) == AttributesUpTo(db, t, n) + AttributeEdges(db, a)
  {
  }

  function ChildrenUpTo(db: Database, t: TypeId, n: nat): (es: seq<Edge>)
    requires n <= |db.types|
    ensures forall k :: 0 <= k < |es| ==> es[k].target < |db.types|
  {
    if n == 0 then [] else ChildrenUpTo(db, t, n - 1) + ChildEdges(db, t, n - 1)
  }

  function AggregatesUpTo(db: Database, t: TypeId, n: nat): (es: seq<Edge>)
    requires db.Valid() && n <= |db.aggregates|
    ensures forall k :: 0 <= k < |es| ==> es[k].target < |db.types|
  {
    if n == 0 then [] else AggregatesUpTo(db, t, n - 1) + AggregateEdges(db, t, db.aggregates[n - 1])
  }

  /** All edges out of a type, in the order the search follows them: attributes, registered
      descendants, aggregations. */
  function Edges(db: Database, t: TypeId): (es: seq<Edge>)
    requires db.Valid() && t < |db.types|
    ensures forall k :: 0 <= k < |es| ==> es[k].target < |db.types|
  {
    AttributesUpTo(db, t, |db.types[t].attributes|)
    + ChildrenUpTo(db, t, |db.types|)
    + AggregatesUpTo(db, t, |db.aggregates|)
  }

  // ---------------------------------------------------------------- walks

  /** A walk from a type is the list of the positions of the edges it follows. */
  type Walk = seq<nat>

  ghost predicate IsWalk(db: Database, root: TypeId, w: Walk)
    requires db.Valid() && root < |db.types|
    decreases |w|
  {
    w == [] || (w[0] < |Edges(db, root)| && IsWalk(db, Edges(db, root)[w[0]].target, w[1..]))
  }

  /** The types a walk visits, its start included. */
  ghost function Visited(db: Database, root: TypeId, w: Walk): seq<TypeId>
    requires db.Valid() && root < |db.types| && IsWalk(db, root, w)
    decreases |w|
  {
    if w == [] then [root] else [root] + Visited(db, Edges(db, root)[w[0]].target, w[1..])
  }

  ghost function Segments(db: Database, root: TypeId, w: Walk): seq<string>
    requires db.Valid() && root < |db.types| && IsWalk(db, root, w)
    decreases |w|
  {
    if w == [] then []
    else
      var e := Edges(db, root)[w[0]];
      [e.segment] + Segments(db, e.target, w[1..])
  }

  ghost function EndOf(db: Database, root: TypeId, w: Walk): TypeId
    requires db.Valid() && root < |db.types| && IsWalk(db, root, w)
    decreases |w|
  {
    if w == [] then root else EndOf(db, Edges(db, root)[w[0]].target, w[1..])
  }

  ghost predicate Distinct<T>(s: seq<T>)
  {
    forall i, j :: 0 <= i < j < |s| ==> s[i] != s[j]
  }

  ghost predicate Avoids(s: seq<TypeId>, stack: seq<TypeId>)
  {
    forall i :: 0 <= i < |s| ==> s[i] !in stack
  }

  /** A walk that visits no type twice and none of `stack`. */
  ghost predicate SimpleWalk(db: Database, stack: seq<TypeId>, root: TypeId, w: Walk)
    requires db.Valid() && root < |db.types|
  {
    IsWalk(db, root, w) && Distinct(Visited(db, root, w)) && Avoids(Visited(db, root, w), stack)
  }

  /** The order in which a depth-first search meets walks: a walk before its extensions, and earlier
      edges first. */
  ghost predicate Before(a: Walk, b: Walk)
  {
    if b == [] then false
    else if a == [] then true
    else if a[0] == b[0] then Before(a[1..], b[1..])
    else a[0] < b[0]
  }

  /** The configuration path as text. */
  function PathText(path: seq<string>): string
  {
    if path == [] then "" else PathText(path[..|path| - 1]) + "/" + path[|path| - 1]
  }

  lemma OneSegment(x: string)
    ensures PathText([]) == "" && PathText([x]) == "/" + x
  {
    assert [x][..0] == [];
  }

  /** The text of a path is that of its parts, one after the other. */
  lemma {:induction false} PathTextParts(p: seq<string>, q: seq<string>)
    ensures PathText(p + q) == PathText(p) + PathText(q)
    decreases |q|
  {
    if q == [] {
      assert p + q == p;
    } else {
      var n := |q| - 1;
      var front, x := q[..n], q[n];
      PathTextParts(p, front);
      assert (p + q)[..|p + q| - 1] == p + front;
      assert PathText(p + q) == PathText(p + front) + "/" + x && PathText(q) == PathText(front) + "/" + x;
      hide PathText;
      Associative(PathText(p), PathText(front), "/");
      Associative(PathText(p), PathText(front) + "/", x);
    }
  }

  /** What the search records for a walk reached along `path`: the end type and the path to it. */
  ghost function Entry(db: Database, path: seq<string>, root: TypeId, w: Walk): (TypeId, string)
    requires db.Valid() && root < |db.types| && IsWalk(db, root, w)
  {
    (EndOf(db, root, w), PathText(path + Segments(db, root, w)))
  }
}
