/** The attach loops of the to-many loaders, which append each neighbour to the lists of its owners. */
module AttachToMany {
  import opened Schema
  import opened Relations
  import opened NaiveLoad
  import opened NaiveTrees
  import opened Nodes
  import opened EdgeResults

  /** The picked trees are trees of the picked rows. */
  lemma {:induction false} PickTrees(db: Database, sub: Query, fields: seq<Column>, rows: seq<Row>, ts: seq<Tree>,
                                     s: Selector)
    requires ValidDatabase(db) && AreNaiveTrees(db, sub, fields, rows, ts)
    ensures AreNaiveTrees(db, sub, fields, PickRows(rows, s), Pick(ts, rows, s))
  {
    if rows != [] {
      var n := |rows| - 1;
      PickTrees(db, sub, fields, rows[..n], ts[..n], s);
      var mine, front := Pick(ts[..n], rows[..n], s), PickRows(rows[..n], s);
      assert mine + [] == mine && front + [] == front;
    }
  }

  lemma {:induction false} TreesOfPicked(nodes: seq<Node>, rows: seq<Row>, s: Selector)
    requires |nodes| == |rows|
    ensures TreesOf(Pick(nodes, rows, s)) == Pick(TreesOf(nodes), rows, s)
  {
    if rows != [] {
      var n := |rows| - 1;
      TreesOfPicked(nodes[..n], rows[..n], s);
      assert TreesOf(nodes)[..n] == TreesOf(nodes[..n]);
    }
  }

  /** The first loop of a to-many loader: every node starts with an empty list, and the map from ids
      to nodes keeps the last node of each id. */
  method InitEdges(e: Edge, nodes: seq<Node>, ghost rows: seq<Row>, ghost before: seq<map<Edge, seq<Node>>>)
    returns (fks: seq<int>, nodeids: map<int, Node>, ghost last: map<int, nat>)
    requires |nodes| == |rows| && Apart(nodes) && before == EdgesOf(nodes)
    requires forall i | 0 <= i < |nodes| :: IntAt(nodes[i].fields, Id) == IntAt(rows[i], Id)
    modifies nodes`edges
    ensures fks == Ids(rows) && IndexedById(nodes, rows, nodeids, last)
    ensures ListsAre(nodes, before, e, seq(|nodes|, i => []))
  {
    fks, nodeids, last := [], map[], map[];
    for i := 0 to |nodes|
      invariant fks == Ids(rows)[..i]
      invariant IndexedById(nodes[..i], rows[..i], nodeids, last)
      invariant forall k | 0 <= k < i :: nodes[k].edges == before[k][e := []]
      invariant forall k | i <= k < |nodes| :: nodes[k].edges == before[k]
    {
      var id := IntAt(nodes[i].fields, Id);
      IndexStep(nodes, rows, i, nodeids, last);
      fks := fks + [id];
      nodeids, last := nodeids[id := nodes[i]], last[id := i];
      nodes[i].edges := nodes[i].edges[e := []];
    }
    assert nodes[..|nodes|] == nodes && rows[..|nodes|] == rows;
  }

  /** The edges are as `before`, but for edge `e`, which holds these lists. */
  ghost predicate ListsAre(nodes: seq<Node>, before: seq<map<Edge, seq<Node>>>, e: Edge, lists: seq<seq<Node>>)
    reads nodes
  {
    && |before| == |lists| == |nodes|
    && forall i | 0 <= i < |nodes| :: nodes[i].edges == before[i][e := lists[i]]
  }

  /** `nodeids` maps the id of every row to its last node, at position `last`. */
  ghost predicate IndexedById(nodes: seq<Node>, rows: seq<Row>, nodeids: map<int, Node>, last: map<int, nat>)
    requires |nodes| == |rows|
  {
    && nodeids.Keys == last.Keys
    && (forall id | id in last ::
          last[id] < |rows| && IntAt(rows[last[id]], Id) == id && nodeids[id] == nodes[last[id]])
    && (forall k | 0 <= k < |rows| :: IntAt(rows[k], Id) in last && k <= last[IntAt(rows[k], Id)])
  }

  lemma IndexStep(nodes: seq<Node>, rows: seq<Row>, i: nat, nodeids: map<int, Node>, last: map<int, nat>)
    requires i < |nodes| == |rows| && IndexedById(nodes[..i], rows[..i], nodeids, last)
    ensures IndexedById(nodes[..i + 1], rows[..i + 1],
                        nodeids[IntAt(rows[i], Id) := nodes[i]], last[IntAt(rows[i], Id) := i])
  {
  }

  /** The list of node `i` after these neighbours were attached. */
  ghost function ListFor(m: Matcher, rows: seq<Row>, neighbours: seq<Node>, childRows: seq<Row>, i: nat): seq<Node>
    requires i < |rows| && |neighbours| == |childRows|
  {
    if LastWithId(rows, i) then Pick(neighbours, childRows, SelectorFor(m, IntAt(rows[i], Id))) else []
  }

  ghost function ListsFor(m: Matcher, rows: seq<Row>, neighbours: seq<Node>, childRows: seq<Row>): seq<seq<Node>>
    requires |neighbours| == |childRows|
  {
    seq(|rows|, i requires 0 <= i < |rows| => ListFor(m, rows, neighbours, childRows, i))
  }

  /** The lists with `n` appended to those of the `owners`. */
  ghost function Appended(nodes: seq<Node>, lists: seq<seq<Node>>, owners: set<Node>, n: Node): (r: seq<seq<Node>>)
    requires |lists| == |nodes|
    ensures |r| == |nodes|
  {
    seq(|nodes|, i requires 0 <= i < |nodes| => if nodes[i] in owners then lists[i] + [n] else lists[i])
  }

  /** `owners` are the indexed nodes that a child row belongs to. */
  ghost predicate AreOwners(m: Matcher, nodes: seq<Node>, rows: seq<Row>, childRow: Row, owners: set<Node>)
    requires |nodes| == |rows|
  {
    && (forall n | n in owners :: n in nodes)
    && (forall i | 0 <= i < |rows| :: nodes[i] in owners <==>
          LastWithId(rows, i) && Hit(SelectorFor(m, IntAt(rows[i], Id)), childRow))
  }

  /** `nids` has the indexed nodes of every child row whose id it has. */
  ghost predicate OwnersKnown(m: Matcher, nodes: seq<Node>, rows: seq<Row>, childRows: seq<Row>,
                              nids: map<int, set<Node>>)
    requires |nodes| == |rows|
  {
    forall j | 0 <= j < |childRows| && IntAt(childRows[j], Id) in nids ::
      AreOwners(m, nodes, rows, childRows[j], nids[IntAt(childRows[j], Id)])
  }

  lemma ListsForStep(m: Matcher, nodes: seq<Node>, rows: seq<Row>, neighbours: seq<Node>, childRows: seq<Row>,
                     j: nat, owners: set<Node>)
    requires |nodes| == |rows| && j < |neighbours| == |childRows|
    requires AreOwners(m, nodes, rows, childRows[j], owners)
    ensures ListsFor(m, rows, neighbours[..j + 1], childRows[..j + 1]) ==
            Appended(nodes, ListsFor(m, rows, neighbours[..j], childRows[..j]), owners, neighbours[j])
  {
    forall i | 0 <= i < |rows|
      ensures ListFor(m, rows, neighbours[..j + 1], childRows[..j + 1], i) ==
              if nodes[i] in owners then ListFor(m, rows, neighbours[..j], childRows[..j], i) + [neighbours[j]]
              else ListFor(m, rows, neighbours[..j], childRows[..j], i)
    {
      var list := ListFor(m, rows, neighbours[..j], childRows[..j], i);
      assert list + [] == list;
      PickSnoc(neighbours, childRows, j, SelectorFor(m, IntAt(rows[i], Id)));
    }
  }

  lemma KeyOwner(key: Column, nodes: seq<Node>, rows: seq<Row>, nodeids: map<int, Node>, last: map<int, nat>,
                 childRow: Row)
    requires |nodes| == |rows| && Apart(nodes) && IndexedById(nodes, rows, nodeids, last)
    requires IsInt(childRow, key) && IntAt(childRow, key) in nodeids
    ensures AreOwners(OnKey(key), nodes, rows, childRow, {nodeids[IntAt(childRow, key)]})
  {
    assert nodes[last[IntAt(childRow, key)]] in nodes;
    forall i | 0 <= i < |rows|
      ensures nodes[i] == nodeids[IntAt(childRow, key)] <==>
              LastWithId(rows, i) && Hit(SelectorFor(OnKey(key), IntAt(rows[i], Id)), childRow)
    {
      LastIsLast(nodes, rows, nodeids, last, i);
    }
  }

  lemma LastIsLast(nodes: seq<Node>, rows: seq<Row>, nodeids: map<int, Node>, last: map<int, nat>, i: nat)
    requires |nodes| == |rows| && IndexedById(nodes, rows, nodeids, last) && i < |rows|
    ensures IntAt(rows[i], Id) in last
    ensures LastWithId(rows, i) <==> i == last[IntAt(rows[i], Id)]
    ensures forall id | id in last && last[id] == i :: id == IntAt(rows[i], Id)
  {
  }

  /** Appends `n` to the list of edge `e`, as the `assign` callbacks of the to-many edges do. */
  method Append(nodes: seq<Node>, ghost before: seq<map<Edge, seq<Node>>>, e: Edge, ghost lists: seq<seq<Node>>,
                node: Node, n: Node)
    requires Apart(nodes) && ListsAre(nodes, before, e, lists) && node in nodes
    modifies node`edges
    ensures ListsAre(nodes, before, e, Appended(nodes, lists, {node}, n))
  {
    node.edges := node.edges[e := node.edges[e] + [n]];
  }

  /** The second loop of a one-to-many loader: each neighbour is appended to the node its key names. */
  method AttachMany(e: Edge, key: Column, nodes: seq<Node>, nodeids: map<int, Node>, neighbours: seq<Node>,
                    ghost rows: seq<Row>, ghost last: map<int, nat>, ghost childRows: seq<Row>,
                    ghost before: seq<map<Edge, seq<Node>>>)
    returns (r: Result<()>)
    requires |nodes| == |rows| && Apart(nodes) && IndexedById(nodes, rows, nodeids, last)
    requires |neighbours| == |childRows|
    requires forall j | 0 <= j < |neighbours| ::
      IsInt(neighbours[j].fields, key) == IsInt(childRows[j], key) &&
      IntAt(neighbours[j].fields, key) == IntAt(childRows[j], key)
    requires ListsAre(nodes, before, e, seq(|nodes|, i => []))
    modifies nodes`edges
    ensures r.Success? <==> forall c | c in childRows :: IsInt(c, key) && IntAt(c, key) in nodeids
    ensures r.Success? ==> ListsAre(nodes, before, e, ListsFor(OnKey(key), rows, neighbours, childRows))
  {
    assert ListsFor(OnKey(key), rows, [], []) == seq(|nodes|, i => []);
    for j := 0 to |neighbours|
      invariant KeysKnown(key, childRows, j, nodeids.Keys)
      invariant ListsAre(nodes, before, e, ListsFor(OnKey(key), rows, neighbours[..j], childRows[..j]))
    {
      var n := neighbours[j];
      if !IsInt(n.fields, key) {
        assert childRows[j] in childRows;
        return Failure(NilForeignKey);
      }
      var fk := IntAt(n.fields, key);
      if fk !in nodeids {
        assert childRows[j] in childRows;
        return Failure(UnexpectedNode(fk));
      }
      assert KeysKnown(key, childRows, j + 1, nodeids.Keys);
      ListsForKey(key, nodes, rows, nodeids, last, neighbours, childRows, j);
      Append(nodes, before, e, ListsFor(OnKey(key), rows, neighbours[..j], childRows[..j]), nodeids[fk], n);
    }
    assert neighbours[..|neighbours|] == neighbours && childRows[..|neighbours|] == childRows;
    r := Success(());
  }

  lemma ListsForKey(key: Column, nodes: seq<Node>, rows: seq<Row>, nodeids: map<int, Node>, last: map<int, nat>,
                    neighbours: seq<Node>, childRows: seq<Row>, j: nat)
    requires |nodes| == |rows| && Apart(nodes) && IndexedById(nodes, rows, nodeids, last)
    requires j < |neighbours| == |childRows|
    requires IsInt(childRows[j], key) && IntAt(childRows[j], key) in nodeids
    ensures ListsFor(OnKey(key), rows, neighbours[..j + 1], childRows[..j + 1]) ==
            Appended(nodes, ListsFor(OnKey(key), rows, neighbours[..j], childRows[..j]),
                     {nodeids[IntAt(childRows[j], key)]}, neighbours[j])
    ensures nodeids[IntAt(childRows[j], key)] in nodes
  {
    KeyOwner(key, nodes, rows, nodeids, last, childRows[j]);
    ListsForStep(OnKey(key), nodes, rows, neighbours, childRows, j, {nodeids[IntAt(childRows[j], key)]});
  }

  /** Appends `n` to the lists of all owners, in whatever order the map is iterated. */
  method AppendToAll(nodes: seq<Node>, ghost before: seq<map<Edge, seq<Node>>>, e: Edge, ghost lists: seq<seq<Node>>,
                     owners: set<Node>, n: Node)
    requires Apart(nodes) && ListsAre(nodes, before, e, lists) && forall k | k in owners :: k in nodes
    modifies nodes`edges
    ensures ListsAre(nodes, before, e, Appended(nodes, lists, owners, n))
  {
    var left := owners;
    assert Appended(nodes, lists, owners - left, n) == lists;
    while left != {}
      invariant left <= owners
      invariant ListsAre(nodes, before, e, Appended(nodes, lists, owners - left, n))
      decreases left
    {
      var kn :| kn in left;
      Append(nodes, before, e, Appended(nodes, lists, owners - left, n), kn, n);
      assert Appended(nodes, Appended(nodes, lists, owners - left, n), {kn}, n) ==
             Appended(nodes, lists, owners - (left - {kn}), n);
      left := left - {kn};
    }
    assert owners - left == owners;
  }

  lemma NoListsYet(m: Matcher, nodes: seq<Node>, rows: seq<Row>)
    requires |nodes| == |rows|
    ensures ListsFor(m, rows, [], []) == seq(|nodes|, i => [])
  {
  }

  lemma AllOf(neighbours: seq<Node>, childRows: seq<Row>)
    requires |neighbours| == |childRows|
    ensures neighbours[..0] == [] && childRows[..0] == []
    ensures neighbours[..|neighbours|] == neighbours && childRows[..|neighbours|] == childRows
  {
  }

  /** Neighbour `j` of a many-to-many loader is appended to the lists of its owners. */
  method AttachToOwners(e: Edge, ghost m: Matcher, nodes: seq<Node>, owners: set<Node>, neighbours: seq<Node>,
                        ghost rows: seq<Row>, ghost childRows: seq<Row>, ghost before: seq<map<Edge, seq<Node>>>,
                        j: nat)
    requires |nodes| == |rows| && Apart(nodes) && j < |neighbours| == |childRows|
    requires AreOwners(m, nodes, rows, childRows[j], owners)
    requires ListsAre(nodes, before, e, ListsFor(m, rows, neighbours[..j], childRows[..j]))
    modifies nodes`edges
    ensures ListsAre(nodes, before, e, ListsFor(m, rows, neighbours[..j + 1], childRows[..j + 1]))
  {
    ListsForStep(m, nodes, rows, neighbours, childRows, j, owners);
    AppendToAll(nodes, before, e, ListsFor(m, rows, neighbours[..j], childRows[..j]), owners, neighbours[j]);
  }

  /** The last loop of a many-to-many loader. */
  method AttachLinked(e: Edge, ghost m: Matcher, nodes: seq<Node>, nids: map<int, set<Node>>, neighbours: seq<Node>,
                      ghost rows: seq<Row>, ghost childRows: seq<Row>, ghost before: seq<map<Edge, seq<Node>>>)
    returns (r: Result<()>)
    requires |nodes| == |rows| && Apart(nodes) && |neighbours| == |childRows|
    requires forall j | 0 <= j < |neighbours| ::
      IsInt(childRows[j], Id) && IntAt(neighbours[j].fields, Id) == IntAt(childRows[j], Id)
    requires OwnersKnown(m, nodes, rows, childRows, nids)
    requires ListsAre(nodes, before, e, seq(|nodes|, i => []))
    modifies nodes`edges
    ensures r.Success? <==> forall c | c in childRows :: IntAt(c, Id) in nids
    ensures r.Success? ==> ListsAre(nodes, before, e, ListsFor(m, rows, neighbours, childRows))
  {
    NoListsYet(m, nodes, rows);
    AllOf(neighbours, childRows);
    for j := 0 to |neighbours|
      invariant KeysKnown(Id, childRows, j, nids.Keys)
      invariant ListsAre(nodes, before, e, ListsFor(m, rows, neighbours[..j], childRows[..j]))
    {
      var n := neighbours[j];
      var id := IntAt(n.fields, Id);
      if id !in nids {
        assert childRows[j] in childRows;
        return Failure(UnexpectedNode(id));
      }
      assert KeysKnown(Id, childRows, j + 1, nids.Keys);
      AttachToOwners(e, m, nodes, nids[id], neighbours, rows, childRows, before, j);
    }
    r := Success(());
  }
}
