/** What the generated edge accessors report about a loaded object. */
module EdgeAccessors {
  import opened Schema
  import opened Relations
  import opened NaiveLoad
  import opened NaiveTrees
  import opened Nodes

  datatype Access<+T> = Found(value: T) | NotFound | NotLoaded

  /** What an object holds behind an edge. */
  ghost function Behind(n: Node, e: Edge): seq<Node>
    reads n
  {
    if e in n.edges then n.edges[e] else []
  }

  /** `ProxyOrErr`, `ParentOrErr`, `AccountOrErr`, `GroupOrErr`. */
  function ToOneOrErr(n: Node, e: Edge): Access<Node>
    reads n
  {
    if e in n.edges && n.edges[e] != [] then Found(n.edges[e][0])
    else if e in n.loaded then NotFound
    else NotLoaded
  }

  /** `GroupsOrErr`, `ChildrenOrErr`, `UsageLogsOrErr`, `AccountGroupsOrErr`. */
  function ToManyOrErr(n: Node, e: Edge): Access<seq<Node>>
    reads n
  {
    if e in n.loaded then Found(if e in n.edges then n.edges[e] else []) else NotLoaded
  }

  /** What a finished object holds for an edge, read back from its tree. */
  lemma EdgeOfNode(db: Database, q: Query, fields: seq<Column>, n: Node, row: Row, heap: set<Node>, e: Edge)
    requires ValidDatabase(db) && Settled(n, heap) && IsNaiveTree(db, q, fields, row, n.tree)
    ensures n.loaded == q.with.Keys
    ensures e in n.edges <==> e in q.with && HasEdge(db, e, q.with[e], row)
    ensures e in n.edges ==> IsNaiveEdge(db, e, q.with[e], row, TreesOf(n.edges[e]))
  {
    var built := map x | x in n.edges :: TreesOf(n.edges[x]);
    assert n.tree == Tree(n.entity, n.fields, n.loaded, built);
    assert e in n.tree.edges <==> e in built;
  }

  /** The row that a to-one edge refers to: its id is the foreign key, and the sub-query admits it. */
  ghost predicate RefersTo(db: Database, e: Edge, sub: Query, row: Row, target: Row)
    requires ValidDatabase(db)
  {
    IsInt(row, Key(e)) && Holds(target, Id, IntAt(row, Key(e))) && target in db.tables[sub.entity] && sub.where(target)
  }

  ghost predicate HasTarget(db: Database, e: Edge, sub: Query, row: Row)
    requires ValidDatabase(db)
  {
    exists target :: RefersTo(db, e, sub, row, target)
  }

  /** `found` is the object of a row that the edge refers to. */
  ghost predicate IsLoaded(db: Database, e: Edge, sub: Query, row: Row, found: Node)
    requires ValidDatabase(db)
    reads found
  {
    exists target :: RefersTo(db, e, sub, row, target) && IsNaiveTree(db, sub, sub.fields, target, found.tree)
  }

  /** A to-one accessor says "not loaded" exactly if the edge was not requested, "not found" exactly if it was
      but the key is nil or names no admitted row, and otherwise returns the object of that row. */
  lemma ToOneOutcome(db: Database, q: Query, fields: seq<Column>, n: Node, row: Row, heap: set<Node>, e: Edge)
    requires ValidDatabase(db) && WellTyped(q) && Rel(e).ManyToOne?
    requires Settled(n, heap) && IsNaiveTree(db, q, fields, row, n.tree)
    ensures ToOneOrErr(n, e).NotLoaded? <==> e !in q.with
    ensures ToOneOrErr(n, e).NotFound? <==>
            e in q.with && !HasTarget(db, e, q.with[e], row)
    ensures ToOneOrErr(n, e).Found? ==>
              e in q.with && IsLoaded(db, e, q.with[e], row, ToOneOrErr(n, e).value)
  {
    EdgeOfNode(db, q, fields, n, row, heap, e);
    if e in q.with {
      NeighbourIsReferred(db, e, q.with[e], row);
      if e in n.edges {
        FirstIsNeighbour(db, e, q.with[e], row, n.edges[e]);
      }
    }
  }

  lemma FirstIsNeighbour(db: Database, e: Edge, sub: Query, row: Row, nodes: seq<Node>)
    requires ValidDatabase(db) && Rel(e).ManyToOne? && IsNaiveEdge(db, e, sub, row, TreesOf(nodes))
    ensures |nodes| == |Neighbours(db, e, sub, row)|
    ensures nodes != [] ==> IsNaiveTree(db, sub, sub.fields, Neighbours(db, e, sub, row)[0], nodes[0].tree)
  {
    assert |TreesOf(nodes)| == |nodes|;
    if nodes != [] {
      assert TreesOf(nodes)[0] == nodes[0].tree;
    }
  }

  lemma NeighbourIsReferred(db: Database, e: Edge, sub: Query, row: Row)
    requires ValidDatabase(db) && Rel(e).ManyToOne?
    ensures forall r :: r in Neighbours(db, e, sub, row) <==> RefersTo(db, e, sub, row, r)
    ensures Neighbours(db, e, sub, row) != [] <==> HasTarget(db, e, sub, row)
    ensures Neighbours(db, e, sub, row) != [] ==> RefersTo(db, e, sub, row, Neighbours(db, e, sub, row)[0])
  {
    FetchMembers(db, sub, In(Id, [IntAt(row, Key(e))]));
    var rows := Neighbours(db, e, sub, row);
    assert rows != [] ==> rows[0] in rows;
  }

  /** A to-many accessor says "not loaded" exactly if the edge was not requested, and otherwise returns the
      objects of all neighbours, in an order that the query allows. */
  lemma ToManyOutcome(db: Database, q: Query, fields: seq<Column>, n: Node, row: Row, heap: set<Node>, e: Edge)
    requires ValidDatabase(db) && WellTyped(q) && !Rel(e).ManyToOne?
    requires Settled(n, heap) && IsNaiveTree(db, q, fields, row, n.tree)
    ensures ToManyOrErr(n, e).NotLoaded? <==> e !in q.with
    ensures e in q.with ==>
              ToManyOrErr(n, e).Found? && IsNaiveEdge(db, e, q.with[e], row, TreesOf(ToManyOrErr(n, e).value))
  {
    EdgeOfNode(db, q, fields, n, row, heap, e);
  }
}
