/** Which edges leave a type, in which order and how often, in terms of the database alone. */
module EdgeOrigins {
  import opened TypeGraph
  import opened Sequences

  /** Where an edge comes from: an attribute, a registered type, or a recorded aggregation. */
  datatype Part = Attributes | Registered | Aggregations

  datatype Origin = Origin(part: Part, index: nat)

  /** Attributes come first, then registered types, then aggregations, each in their order. */
  ghost predicate Precedes(a: Origin, b: Origin)
  {
    match (a.part, b.part)
    case (Attributes, Registered) => true
    case (Attributes, Aggregations) => true
    case (Registered, Aggregations) => true
    case _ => a.part == b.part && a.index < b.index
  }

  /** The edge that an attribute, a registered type or an aggregation gives: a pointer to anything but a
      plain object, a container under "/[i]", a descendant under "$" and its name, or the other side of an
      aggregation under "$" and its name. */
  ghost predicate Gives(db: Database, t: TypeId, o: Origin, e: Edge)
    requires t < |db.types|
  {
    match o.part
    case Attributes =>
      && o.index < |db.types[t].attributes|
      && var a := db.types[t].attributes[o.index];
         || (a.checker.PointerTo? && a.checker.pointee != db.objectId && e == Edge(a.name, a.checker.pointee))
         || (a.checker.ContainerOf? && e == Edge(a.name + "/[i]", a.checker.item))
    case Registered =>
      && o.index < |db.types| && (o.index, t) in db.childOf
      && e == Edge("$" + db.types[o.index].name, o.index)
    case Aggregations =>
      && o.index < |db.aggregates| && e.target < |db.types| && e.segment == "$" + db.types[e.target].name
      && (db.aggregates[o.index] == (t, e.target) || db.aggregates[o.index] == (e.target, t))
  }

  /** `es` are the edges that the origins in `from` give, in their order, and no other origin gives any. */
  ghost predicate Traced(db: Database, t: TypeId, es: seq<Edge>, from: seq<Origin>)
    requires t < |db.types|
  {
    && |from| == |es|
    && (forall k :: 0 <= k < |es| ==> Gives(db, t, from[k], es[k]))
    && (forall i, j :: 0 <= i < j < |from| ==> Precedes(from[i], from[j]))
    && (forall o, e :: Gives(db, t, o, e) ==> o in from)
  }

  // ---------------------------------------------------------------- one part

  ghost function Size(db: Database, t: TypeId, part: Part): nat
    requires t < |db.types|
  {
    match part
    case Attributes => |db.types[t].attributes|
    case Registered => |db.types|
    case Aggregations => |db.aggregates|
  }

  ghost function UpTo(db: Database, t: TypeId, part: Part, n: nat): seq<Edge>
    requires db.Valid() && t < |db.types| && n <= Size(db, t, part)
  {
    match part
    case Attributes => AttributesUpTo(db, t, n)
    case Registered => ChildrenUpTo(db, t, n)
    case Aggregations => AggregatesUpTo(db, t, n)
  }

  /** The next origin of a part gives one edge or none. */
  lemma OneMore(db: Database, t: TypeId, part: Part, n: nat) returns (es: seq<Edge>)
    requires db.Valid() && t < |db.types| && n < Size(db, t, part)
    ensures UpTo(db, t, part, n + 1) == UpTo(db, t, part, n) + es
    ensures es == [] || (|es| == 1 && Gives(db, t, Origin(part, n), es[0]))
    ensures es == [] ==> forall e :: !Gives(db, t, Origin(part, n), e)
  {
    match part
    case Attributes => es := AttributeEdges(db, db.types[t].attributes[n]);
    case Registered => es := ChildEdges(db, t, n);
    case Aggregations => es := AggregateEdges(db, t, db.aggregates[n]);
  }

  ghost predicate PartTraced(db: Database, t: TypeId, part: Part, n: nat, from: seq<Origin>)
    requires db.Valid() && t < |db.types| && n <= Size(db, t, part)
  {
    && |from| == |UpTo(db, t, part, n)|
    && (forall k :: 0 <= k < |from| ==> from[k].part == part && from[k].index < n)
    && (forall k :: 0 <= k < |from| ==> Gives(db, t, from[k], UpTo(db, t, part, n)[k]))
    && (forall i, j :: 0 <= i < j < |from| ==> Precedes(from[i], from[j]))
    && (forall o: Origin, e: Edge :: o.part == part && o.index < n && Gives(db, t, o, e) ==> o in from)
  }

  lemma {:induction false} TracePart(db: Database, t: TypeId, part: Part, n: nat) returns (from: seq<Origin>)
    requires db.Valid() && t < |db.types| && n <= Size(db, t, part)
    ensures PartTraced(db, t, part, n, from)
  {
    hide Gives, UpTo, PartTraced;
    if n == 0 {
      from := [];
      NothingTraced(db, t, part);
    } else {
      from := TracePart(db, t, part, n - 1);
      var es := OneMore(db, t, part, n - 1);
      if es == [] {
        PartSame(db, t, part, n - 1, from);
      } else {
        PartLonger(db, t, part, n - 1, from, es[0]);
        from := from + [Origin(part, n - 1)];
      }
    }
  }

  lemma NothingTraced(db: Database, t: TypeId, part: Part)
    requires db.Valid() && t < |db.types|
    ensures PartTraced(db, t, part, 0, [])
  {
    hide Gives;
  }

  lemma PartSame(db: Database, t: TypeId, part: Part, n: nat, from: seq<Origin>)
    requires db.Valid() && t < |db.types| && n < Size(db, t, part) && PartTraced(db, t, part, n, from)
    requires UpTo(db, t, part, n + 1) == UpTo(db, t, part, n) + []
    requires forall e :: !Gives(db, t, Origin(part, n), e)
    ensures PartTraced(db, t, part, n + 1, from)
  {
    hide Gives, UpTo, Precedes;
    forall o: Origin, f: Edge | o.part == part && o.index < n + 1 && Gives(db, t, o, f) ensures o in from {
      assert o == Origin(part, n) || o.index < n;
    }
  }

  lemma PartLonger(db: Database, t: TypeId, part: Part, n: nat, from: seq<Origin>, e: Edge)
    requires db.Valid() && t < |db.types| && n < Size(db, t, part) && PartTraced(db, t, part, n, from)
    requires UpTo(db, t, part, n + 1) == UpTo(db, t, part, n) + [e] && Gives(db, t, Origin(part, n), e)
    ensures PartTraced(db, t, part, n + 1, from + [Origin(part, n)])
  {
    hide Gives, UpTo;
    var last := Origin(part, n);
    forall o: Origin, f: Edge | o.part == part && o.index < n + 1 && Gives(db, t, o, f) ensures o in from + [last] {
      assert o == last || o.index < n;
    }
  }

  // ---------------------------------------------------------------- all edges

  ghost predicate ExactEdges(db: Database, t: TypeId, es: seq<Edge>)
    requires t < |db.types|
  {
    exists from :: Traced(db, t, es, from)
  }

  /** The search follows exactly the edges the database gives, each once, in the order of their origins. */
  lemma EdgesAreExact(db: Database, t: TypeId)
    requires db.Valid() && t < |db.types|
    ensures ExactEdges(db, t, Edges(db, t))
  {
    var a := TracePart(db, t, Attributes, |db.types[t].attributes|);
    var r := TracePart(db, t, Registered, |db.types|);
    var g := TracePart(db, t, Aggregations, |db.aggregates|);
    assert Traced(db, t, Edges(db, t), a + r + g) by { PartsTogether(db, t, a, r, g); }
  }

  lemma PartsTogether(db: Database, t: TypeId, a: seq<Origin>, r: seq<Origin>, g: seq<Origin>)
    requires db.Valid() && t < |db.types|
    requires PartTraced(db, t, Attributes, |db.types[t].attributes|, a)
    requires PartTraced(db, t, Registered, |db.types|, r)
    requires PartTraced(db, t, Aggregations, |db.aggregates|, g)
    ensures Traced(db, t, Edges(db, t), a + r + g)
  {
    PartsGive(db, t, a, r, g);
    PartsOrdered(db, t, a, r, g);
    PartsComplete(db, t, a, r, g);
  }

  lemma PartsGive(db: Database, t: TypeId, a: seq<Origin>, r: seq<Origin>, g: seq<Origin>)
    requires db.Valid() && t < |db.types|
    requires PartTraced(db, t, Attributes, |db.types[t].attributes|, a)
    requires PartTraced(db, t, Registered, |db.types|, r)
    requires PartTraced(db, t, Aggregations, |db.aggregates|, g)
    ensures |a + r + g| == |Edges(db, t)|
    ensures forall k :: 0 <= k < |Edges(db, t)| ==> Gives(db, t, (a + r + g)[k], Edges(db, t)[k])
  {
    hide Gives, AttributesUpTo, ChildrenUpTo, AggregatesUpTo, Precedes;
  }

  lemma PartsOrdered(db: Database, t: TypeId, a: seq<Origin>, r: seq<Origin>, g: seq<Origin>)
    requires db.Valid() && t < |db.types|
    requires PartTraced(db, t, Attributes, |db.types[t].attributes|, a)
    requires PartTraced(db, t, Registered, |db.types|, r)
    requires PartTraced(db, t, Aggregations, |db.aggregates|, g)
    ensures var from := a + r + g;
            forall i, j :: 0 <= i < j < |from| ==> Precedes(from[i], from[j])
  {
    hide Gives, UpTo;
  }

  lemma PartsComplete(db: Database, t: TypeId, a: seq<Origin>, r: seq<Origin>, g: seq<Origin>)
    requires db.Valid() && t < |db.types|
    requires PartTraced(db, t, Attributes, |db.types[t].attributes|, a)
    requires PartTraced(db, t, Registered, |db.types|, r)
    requires PartTraced(db, t, Aggregations, |db.aggregates|, g)
    ensures forall o, e :: Gives(db, t, o, e) ==> o in a + r + g
  {
    hide UpTo, Precedes;
    forall o, e | Gives(db, t, o, e) ensures o in a + r + g {
      assert o.part == Attributes || o.part == Registered || o.part == Aggregations;
    }
  }

  /** An edge leaves a type exactly when an attribute, a descendant or an aggregation gives it. */
  lemma EdgeExactlyWhen(db: Database, t: TypeId, e: Edge)
    requires db.Valid() && t < |db.types|
    ensures e in Edges(db, t) <==> exists o :: Gives(db, t, o, e)
  {
    EdgesAreExact(db, t);
    var es := Edges(db, t);
    var from :| Traced(db, t, es, from);
    hide Edges;
    if o :| Gives(db, t, o, e) {
      var k :| 0 <= k < |from| && from[k] == o;
      assert Gives(db, t, o, es[k]);
      GivesOne(db, t, o, e, es[k]);
    }
  }

  lemma GivesOne(db: Database, t: TypeId, o: Origin, e: Edge, f: Edge)
    requires t < |db.types| && Gives(db, t, o, e) && Gives(db, t, o, f)
    ensures e == f
  {
  }
}
