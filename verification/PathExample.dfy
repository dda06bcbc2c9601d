/** A small database and everything the search records for it: a pointer to a plain object, which is not
    followed, a pointer, a container, a descendant and an aggregation, which leads back. */
module PathExample {
  import opened TypeGraph
  import opened PathSearch
  import opened StaticInformation

  const OBJECT := TypeInfo("Object", [])
  const NODE := TypeInfo("Node", [Attribute("o", PointerTo(0)), Attribute("p", PointerTo(2)), Attribute("devs", ContainerOf(2))])
  const PHY := TypeInfo("Phy", [Attribute("n", OtherChecker)])
  const WIFI := TypeInfo("Wifi", [])
  const MOB := TypeInfo("Mob", [])

  function Example(): Database
  {
    Database([OBJECT, NODE, PHY, WIFI, MOB], 0, {(3, 2)}, [(1, 4)])
  }

  lemma ExampleValid()
    ensures Example().Valid() && |Example().types| == 5
  {
  }

  lemma NoChildren(t: TypeId, n: nat)
    requires n <= 5 && t < 5 && (t == 2 ==> n <= 3)
    ensures ChildrenUpTo(Example(), t, n) == []
  {
    if n > 0 { NoChildren(t, n - 1); }
  }

  lemma NodeAttributes()
    ensures Example().Valid()
    ensures AttributesUpTo(Example(), 1, 3) == [Edge("p", 2), Edge("devs/[i]", 2)]
  {
    var db := Example();
    assert "devs" + "/[i]" == "devs/[i]";
    assert AttributesUpTo(db, 1, 0) == [];
    assert AttributesUpTo(db, 1, 1) == [];
    assert AttributesUpTo(db, 1, 2) == [Edge("p", 2)];
  }

  lemma Aggregated(t: TypeId)
    requires t < 5
    ensures Example().Valid()
    ensures AggregatesUpTo(Example(), t, 1) == if t == 1 then [Edge("$Mob", 4)] else if t == 4 then [Edge("$Node", 1)] else []
  {
    var db := Example();
    assert AggregatesUpTo(db, t, 0) == [];
    assert "$" + "Mob" == "$Mob" && "$" + "Node" == "$Node";
  }

  lemma PhyChildren()
    ensures ChildrenUpTo(Example(), 2, 5) == [Edge("$Wifi", 3)]
  {
    var db := Example();
    NoChildren(2, 3);
    assert "$" + "Wifi" == "$Wifi";
    assert ChildrenUpTo(db, 2, 4) == [Edge("$Wifi", 3)];
  }

  lemma OtherAttributes()
    ensures var db := Example();
            && db.Valid()
            && AttributesUpTo(db, 2, 1) == [] && AttributesUpTo(db, 3, 0) == [] && AttributesUpTo(db, 4, 0) == []
  {
    assert AttributesUpTo(Example(), 2, 0) == [];
  }

  lemma NodeEdges()
    ensures Example().Valid() && Edges(Example(), 1) == [Edge("p", 2), Edge("devs/[i]", 2), Edge("$Mob", 4)]
  {
    hide AttributesUpTo, ChildrenUpTo, AggregatesUpTo;
    NodeAttributes();
    Aggregated(1);
    NoChildren(1, 5);
  }

  lemma ExampleEdges()
    ensures var db := Example();
            && db.Valid()
            && Edges(db, 1) == [Edge("p", 2), Edge("devs/[i]", 2), Edge("$Mob", 4)]
            && Edges(db, 2) == [Edge("$Wifi", 3)]
            && Edges(db, 3) == []
            && Edges(db, 4) == [Edge("$Node", 1)]
  {
    hide AttributesUpTo, ChildrenUpTo, AggregatesUpTo;
    NodeEdges();
    OtherAttributes();
    PhyChildren();
    NoChildren(3, 5);
    NoChildren(4, 5);
    Aggregated(2);
    Aggregated(3);
    Aggregated(4);
  }

  // ---------------------------------------------------------------- what is recorded

  lemma OneEdge(db: Database, stack: seq<TypeId>, path: seq<string>, e: Edge)
    requires db.Valid() && e.target < |db.types|
    ensures ValidEdges(db, [e]) && PathsVia(db, stack, path, [e]) == Paths(db, stack, path + [e.segment], e.target)
  {
    PathsViaSnoc(db, stack, path, [], e);
    assert [] + [e] == [e];
  }

  lemma FromWifi(stack: seq<TypeId>, path: seq<string>)
    requires 3 !in stack
    ensures Example().Valid() && Paths(Example(), stack, path, 3) == [(3, PathText(path))]
  {
    ExampleEdges();
  }

  lemma FromPhy(stack: seq<TypeId>, path: seq<string>)
    requires 2 !in stack && 3 !in stack
    ensures Example().Valid()
    ensures Paths(Example(), stack, path, 2) == [(2, PathText(path)), (3, PathText(path) + "/$Wifi")]
  {
    hide PathText, Edges, PathsVia;
    ExampleEdges();
    OneEdge(Example(), stack + [2], path, Edge("$Wifi", 3));
    FromWifi(stack + [2], path + ["$Wifi"]);
    PathTextParts(path, ["$Wifi"]);
    OneSegment("$Wifi");
    assert "/" + "$Wifi" == "/$Wifi";
  }

  lemma FromMob(path: seq<string>)
    ensures Example().Valid() && Paths(Example(), [1], path, 4) == [(4, PathText(path))]
  {
    hide PathText, Edges, PathsVia;
    ExampleEdges();
    OneEdge(Example(), [1] + [4], path, Edge("$Node", 1));
    assert Paths(Example(), [1] + [4], path + ["$Node"], 1) == [];
  }

  /** What the search records for the root "Node", and for the root "Phy". */
  function NodeListed(): seq<(TypeId, string)>
  {
    [(1, ""), (2, "/p"), (3, "/p/$Wifi"), (2, "/devs/[i]"), (3, "/devs/[i]/$Wifi"), (4, "/$Mob")]
  }

  function PhyListed(): seq<(TypeId, string)> { [(2, ""), (3, "/$Wifi")] }

  lemma FromPhyRoot()
    ensures Example().Valid() && Paths(Example(), [], [], 2) == PhyListed()
  {
    FromPhy([], []);
    OneSegment("");
    assert "" + "/$Wifi" == "/$Wifi";
  }

  lemma FromNode()
    ensures Example().Valid()
    ensures Paths(Example(), [], [], 1) == NodeListed()
  {
    hide PathText, Edges, PathsVia;
    var db := Example();
    var p, d, m := Edge("p", 2), Edge("devs/[i]", 2), Edge("$Mob", 4);
    ExampleEdges();
    OneEdge(db, [1], [], p);
    PathsViaSnoc(db, [1], [], [p], d);
    PathsViaSnoc(db, [1], [], [p] + [d], m);
    FromPhy([1], ["p"]);
    FromPhy([1], ["devs/[i]"]);
    FromMob(["$Mob"]);
    OneSegment("p");
    OneSegment("devs/[i]");
    OneSegment("$Mob");
    assert [] + ["p"] == ["p"] && [] + ["devs/[i]"] == ["devs/[i]"] && [] + ["$Mob"] == ["$Mob"];
    assert [] + [1] == [1] && ([p] + [d]) + [m] == [p, d, m];
    assert "/" + "p" == "/p" && "/p" + "/$Wifi" == "/p/$Wifi" && "/" + "$Mob" == "/$Mob";
    assert "/" + "devs/[i]" == "/devs/[i]" && "/devs/[i]" + "/$Wifi" == "/devs/[i]/$Wifi";
  }

  lemma ExampleGathered()
    ensures Example().Valid() && |Example().types| == 5
    ensures Gathered(Example(), [1, 2]) == NodeListed() + PhyListed()
  {
    hide Paths, Gathered, NodeListed, PhyListed;
    ExampleValid();
    FromNode();
    FromPhyRoot();
    hide Example;
    TwoRoots(Example(), 1, 2);
  }

  lemma TwoRoots(db: Database, a: TypeId, b: TypeId)
    requires db.Valid() && a < |db.types| && b < |db.types|
    ensures Gathered(db, [a, b]) == Paths(db, [], [], a) + Paths(db, [], [], b)
  {
    hide Paths;
    assert [a, b][..1] == [a] && [a][..0] == [];
    assert Gathered(db, [a]) == Paths(db, [], [], a);
  }

  lemma PathsToNext(output: seq<(TypeId, string)>, n: nat, t: TypeId)
    requires n < |output|
    ensures PathsTo(output[..n + 1], t) == PathsTo(output[..n], t) + (if output[n].0 == t then [output[n].1] else [])
  {
    assert output[..n + 1][..n] == output[..n];
  }

  lemma NodeListedFor(t: TypeId)
    ensures PathsTo(NodeListed(), t)
         == if t == 1 then [""]
            else if t == 2 then ["/p", "/devs/[i]"]
            else if t == 3 then ["/p/$Wifi", "/devs/[i]/$Wifi"]
            else if t == 4 then ["/$Mob"]
            else []
  {
    var all := NodeListed();
    assert all[..0] == [] && PathsTo([], t) == [];
    hide PathsTo;
    PathsToNext(all, 0, t);
    PathsToNext(all, 1, t);
    PathsToNext(all, 2, t);
    PathsToNext(all, 3, t);
    PathsToNext(all, 4, t);
    PathsToNext(all, 5, t);
    assert all[..6] == all;
  }

  lemma PhyListedFor(t: TypeId)
    ensures PathsTo(PhyListed(), t) == if t == 2 then [""] else if t == 3 then ["/$Wifi"] else []
  {
    var all := PhyListed();
    assert all[..0] == [] && PathsTo([], t) == [];
    hide PathsTo;
    PathsToNext(all, 0, t);
    PathsToNext(all, 1, t);
    assert all[..2] == all;
  }

  /** The whole program on the example: the attribute "o" is skipped, all else is found, in order. */
  method ExamplePaths() returns (plain: seq<string>, phy: seq<string>, wifi: seq<string>, mob: seq<string>)
    ensures plain == []
    ensures phy == ["/p", "/devs/[i]", ""]
    ensures wifi == ["/p/$Wifi", "/devs/[i]/$Wifi", "/$Wifi"]
    ensures mob == ["/$Mob"]
  {
    plain := Ask(0);
    phy := Ask(2);
    wifi := Ask(3);
    mob := Ask(4);
  }

  method Ask(t: TypeId) returns (paths: seq<string>)
    ensures paths
         == if t == 1 then [""]
            else if t == 2 then ["/p", "/devs/[i]", ""]
            else if t == 3 then ["/p/$Wifi", "/devs/[i]/$Wifi", "/$Wifi"]
            else if t == 4 then ["/$Mob"]
            else []
  {
    hide RootTexts, Gathered, PathsTo, NodeListed, PhyListed, Example;
    ExampleGathered();
    paths := ConfigurationPaths(Example(), [1, 2], t);
    GetAfterGatherAll(Example(), [1, 2], t);
    PathsToConcat(NodeListed(), PhyListed(), t);
    NodeListedFor(t);
    PhyListedFor(t);
  }
}
