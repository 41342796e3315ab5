/** What loading one edge has to leave in the nodes, and what a finished query has to deliver. */
module EdgeResults {
  import opened Wrappers
  import opened Schema
  import opened Relations
  import opened NaiveLoad
  import opened NaiveTrees
  import opened Nodes

  /** The node list of a finished query: its objects are in a closed heap and their trees are naively
      loaded trees of the rows. */
  ghost predicate Delivers(r: Result<seq<Node>>, db: Database, q: Query, fields: seq<Column>, rows: seq<Row>,
                           heap: set<Node>)
    requires ValidDatabase(db)
    reads heap, if r.Success? then r.value else []
  {
    match r
    case Failure(err) => err.InvalidField? && QueryFails(db, q, fields, rows)
    case Success(nodes) =>
      && !QueryFails(db, q, fields, rows)
      && Closed(heap)
      && (forall n | n in nodes :: n in heap)
      && AreNaiveTrees(db, q, fields, rows, TreesOf(nodes))
  }

  /** `n.edges` is `before` with edge `e` set to a list with these trees, or untouched if there are none. */
  ghost predicate EdgeSet(n: Node, before: map<Edge, seq<Node>>, e: Edge, want: Option<seq<Tree>>,
                          heap: set<Node>)
    reads n, heap
  {
    match want
    case None => n.edges == before
    case Some(trees) =>
      && e in n.edges && n.edges == before[e := n.edges[e]]
      && (forall c | c in n.edges[e] :: c in heap)
      && TreesOf(n.edges[e]) == trees
  }

  /** Edge `e` of every node holds what it should, and nothing else changed. */
  ghost predicate AllEdgesSet(nodes: seq<Node>, before: seq<map<Edge, seq<Node>>>, e: Edge,
                              want: seq<Option<seq<Tree>>>, heap: set<Node>)
    reads nodes, heap
  {
    && |nodes| == |before| == |want|
    && forall i | 0 <= i < |nodes| :: EdgeSet(nodes[i], before[i], e, want[i], heap)
  }

  /** No later row has the id of row `i`: the maps keyed by id point to this node. */
  ghost predicate LastWithId(rows: seq<Row>, i: nat)
    requires i < |rows|
  {
    forall k | i < k < |rows| :: IntAt(rows[k], Id) != IntAt(rows[i], Id)
  }

  /** What a to-many loader puts on node `i`: of several nodes with one id only the last is served. */
  ghost predicate IsToManyResult(db: Database, e: Edge, sub: Query, rows: seq<Row>, i: nat, result: Option<seq<Tree>>)
    requires ValidDatabase(db) && i < |rows|
  {
    if LastWithId(rows, i) then IsNaiveResult(db, e, sub, rows[i], result) else result == Some([])
  }

  ghost predicate AreToManyResults(db: Database, e: Edge, sub: Query, rows: seq<Row>, results: seq<Option<seq<Tree>>>)
    requires ValidDatabase(db)
  {
    |results| == |rows| && forall i | 0 <= i < |rows| :: IsToManyResult(db, e, sub, rows, i, results[i])
  }

  ghost function EdgesOf(nodes: seq<Node>): (edges: seq<map<Edge, seq<Node>>>)
    reads nodes
  {
    seq(|nodes|, i requires 0 <= i < |nodes| reads nodes => nodes[i].edges)
  }

  /** The first `n` rows carry a key, and it is one of these. */
  ghost predicate KeysKnown(key: Column, childRows: seq<Row>, n: nat, keys: set<int>)
    requires n <= |childRows|
  {
    forall t | 0 <= t < n :: IsInt(childRows[t], key) && IntAt(childRows[t], key) in keys
  }
}
