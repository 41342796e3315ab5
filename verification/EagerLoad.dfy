/** Eager loading as the generated code does it: one batched query per edge, whose rows are then
    attached to the already loaded objects through maps keyed by id. */
module EagerLoad {
  import opened Wrappers
  import opened Schema
  import opened Relations
  import opened NaiveLoad
  import opened NaiveTrees
  import opened JoinOrder
  import opened JoinResults
  import opened Nodes
  import opened EdgeResults
  import opened NodeScan
  import opened AttachToMany
  import opened AttachToOne

  // ---- One-to-many ----

  /** The rows of the batched query are the children of the nodes. */
  lemma ManyMembers(db: Database, e: Edge, sub: Query, rows: seq<Row>)
    requires ValidDatabase(db) && Rel(e).OneToMany?
    ensures AllNeighbours(db, e, sub, rows, Fetch(db, sub, In(Key(e), Ids(rows))))
  {
    var batch := Fetch(db, sub, In(Key(e), Ids(rows)));
    FetchMembers(db, sub, In(Key(e), Ids(rows)));
    forall r | r in batch
      ensures exists i | 0 <= i < |rows| :: r in Neighbours(db, e, sub, rows[i])
    {
      assert Passes(In(Key(e), Ids(rows)), r);
      var id := IntAt(r, Key(e));
      var i :| 0 <= i < |rows| && Ids(rows)[i] == id;
      FetchMembers(db, sub, In(Key(e), [id]));
      assert r in Neighbours(db, e, sub, rows[i]);
    }
    forall i | 0 <= i < |rows|
      ensures forall r | r in Neighbours(db, e, sub, rows[i]) :: r in batch
    {
      FetchMembers(db, sub, In(Key(e), [IntAt(rows[i], Id)]));
      assert Ids(rows)[i] == IntAt(rows[i], Id);
    }
  }

  lemma ManyFails(db: Database, e: Edge, sub: Query, rows: seq<Row>)
    requires ValidDatabase(db) && Rel(e).OneToMany? && rows != []
    ensures QueryFails(db, sub, SubFields(e, sub), Fetch(db, sub, In(Key(e), Ids(rows)))) <==>
            SomeEdgeFails(db, e, sub, rows)
  {
    ManyMembers(db, e, sub, rows);
    assert RunsQuery(e, rows[0]);
    BatchFails(db, e, sub, rows, Fetch(db, sub, In(Key(e), Ids(rows))));
  }

  /** `loadChildren`, `loadUsageLogs`, `loadAccountGroups` and their like. */
  method LoadMany(db: Database, e: Edge, sub: Query, nodes: seq<Node>, ghost rows: seq<Row>,
                  ghost before: seq<map<Edge, seq<Node>>>)
    returns (r: Result<()>, ghost results: seq<Option<seq<Tree>>>, ghost heap: set<Node>)
    requires ValidDatabase(db) && WellTyped(sub) && sub.entity == Target(e) && Rel(e).OneToMany?
    requires |nodes| == |rows| > 0 && Apart(nodes) && before == EdgesOf(nodes)
    requires forall i | 0 <= i < |nodes| :: IntAt(nodes[i].fields, Id) == IntAt(rows[i], Id)
    modifies nodes`edges
    ensures r.Failure? <==> SomeEdgeFails(db, e, sub, rows)
    ensures r.Failure? ==> r.error.InvalidField?
    ensures fresh(heap) && Closed(heap)
    ensures r.Success? ==>
              AreToManyResults(db, e, sub, rows, results) && AllEdgesSet(nodes, before, e, results, heap)
    decreases sub, 5
  {
    results := [];
    var fks, nodeids;
    ghost var last;
    fks, nodeids, last := InitEdges(e, nodes, rows, before);
    var res;
    res, heap := All(db, sub, SubFields(e, sub), In(Key(e), fks));
    ManyFails(db, e, sub, rows);
    if res.Failure? {
      return Failure(res.error), [], {};
    }
    r, results := AttachBatch(db, e, sub, nodes, nodeids, res.value, rows, last, before, heap);
  }

  method AttachBatch(db: Database, e: Edge, sub: Query, nodes: seq<Node>, nodeids: map<int, Node>,
                     neighbours: seq<Node>, ghost rows: seq<Row>, ghost last: map<int, nat>,
                     ghost before: seq<map<Edge, seq<Node>>>, ghost heap: set<Node>)
    returns (r: Result<()>, ghost results: seq<Option<seq<Tree>>>)
    requires ValidDatabase(db) && WellTyped(sub) && sub.entity == Target(e) && Rel(e).OneToMany?
    requires |nodes| == |rows| && Apart(nodes) && IndexedById(nodes, rows, nodeids, last)
    requires ListsAre(nodes, before, e, seq(|nodes|, i => [])) && forall n | n in heap :: n !in nodes
    requires Delivers(Success(neighbours), db, sub, SubFields(e, sub), Fetch(db, sub, In(Key(e), Ids(rows))), heap)
    modifies nodes`edges
    ensures r.Success? && AreToManyResults(db, e, sub, rows, results) && AllEdgesSet(nodes, before, e, results, heap)
  {
    ManyBatch(db, e, sub, nodes, rows, nodeids, last, neighbours, heap);
    r := AttachMany(e, Key(e), nodes, nodeids, neighbours, rows, last, Fetch(db, sub, In(Key(e), Ids(rows))), before);
    results := ManySlices(db, e, sub, nodes, before, rows, neighbours, heap);
  }

  /** Every neighbour carries its key, and the key names a node of this level. */
  lemma ManyBatch(db: Database, e: Edge, sub: Query, nodes: seq<Node>, rows: seq<Row>,
                  nodeids: map<int, Node>, last: map<int, nat>, neighbours: seq<Node>, heap: set<Node>)
    requires ValidDatabase(db) && WellTyped(sub) && sub.entity == Target(e) && Rel(e).OneToMany?
    requires |nodes| == |rows| && IndexedById(nodes, rows, nodeids, last)
    requires Delivers(Success(neighbours), db, sub, SubFields(e, sub), Fetch(db, sub, In(Key(e), Ids(rows))), heap)
    ensures var childRows := Fetch(db, sub, In(Key(e), Ids(rows)));
            && |neighbours| == |childRows|
            && (forall j | 0 <= j < |neighbours| ::
                  IsInt(neighbours[j].fields, Key(e)) == IsInt(childRows[j], Key(e)) &&
                  IntAt(neighbours[j].fields, Key(e)) == IntAt(childRows[j], Key(e)))
            && (forall c | c in childRows :: IsInt(c, Key(e)) && IntAt(c, Key(e)) in nodeids)
  {
    ChildKeys(db, e, sub, neighbours, Ids(rows), heap);
    KeysAreIndexed(db, e, sub, nodes, rows, nodeids, last);
  }

  lemma ManySlices(db: Database, e: Edge, sub: Query, nodes: seq<Node>, before: seq<map<Edge, seq<Node>>>,
                   rows: seq<Row>, neighbours: seq<Node>, heap: set<Node>)
    returns (results: seq<Option<seq<Tree>>>)
    requires ValidDatabase(db) && Rel(e).OneToMany? && |nodes| == |rows|
    requires |neighbours| == |Fetch(db, sub, In(Key(e), Ids(rows)))| && (forall n | n in neighbours :: n in heap)
    requires AreNaiveTrees(db, sub, SubFields(e, sub), Fetch(db, sub, In(Key(e), Ids(rows))), TreesOf(neighbours))
    requires ListsAre(nodes, before, e,
                      ListsFor(OnKey(Key(e)), rows, neighbours, Fetch(db, sub, In(Key(e), Ids(rows)))))
    ensures AreToManyResults(db, e, sub, rows, results) && AllEdgesSet(nodes, before, e, results, heap)
  {
    var m, batch := OnKey(Key(e)), Fetch(db, sub, In(Key(e), Ids(rows)));
    results := ListTrees(m, rows, TreesOf(neighbours), batch);
    forall i | 0 <= i < |nodes|
      ensures IsToManyResult(db, e, sub, rows, i, results[i]) && EdgeSet(nodes[i], before[i], e, results[i], heap)
    {
      ManySlice(db, e, sub, rows, i);
      SliceIsNaive(db, e, sub, rows, i, m, TreesOf(neighbours), batch);
      TreesOfList(m, rows, neighbours, batch, i);
    }
  }

  /** The trees of the lists that a to-many loader leaves. */
  ghost function ListTrees(m: Matcher, rows: seq<Row>, ts: seq<Tree>, batch: seq<Row>)
    : (results: seq<Option<seq<Tree>>>)
    requires |ts| == |batch|
  {
    seq(|rows|, i requires 0 <= i < |rows| =>
      Some(if LastWithId(rows, i) then Pick(ts, batch, SelectorFor(m, IntAt(rows[i], Id))) else []))
  }

  lemma TreesOfList(m: Matcher, rows: seq<Row>, neighbours: seq<Node>, batch: seq<Row>, i: nat)
    requires i < |rows| && |neighbours| == |batch|
    ensures Some(TreesOf(ListFor(m, rows, neighbours, batch, i))) == ListTrees(m, rows, TreesOf(neighbours), batch)[i]
    ensures forall n | n in ListFor(m, rows, neighbours, batch, i) :: n in neighbours
  {
    TreesOfPicked(neighbours, batch, SelectorFor(m, IntAt(rows[i], Id)));
    PickSubset(neighbours, batch, SelectorFor(m, IntAt(rows[i], Id)));
    assert TreesOf([]) == [];
  }

  /** Every row of the batched query names a node of this level. */
  lemma KeysAreIndexed(db: Database, e: Edge, sub: Query, nodes: seq<Node>, rows: seq<Row>,
                       nodeids: map<int, Node>, last: map<int, nat>)
    requires ValidDatabase(db) && |nodes| == |rows| && IndexedById(nodes, rows, nodeids, last)
    ensures forall c | c in Fetch(db, sub, In(Key(e), Ids(rows))) ::
              IsInt(c, Key(e)) && IntAt(c, Key(e)) in nodeids
  {
    FetchMembers(db, sub, In(Key(e), Ids(rows)));
    forall c | c in Fetch(db, sub, In(Key(e), Ids(rows)))
      ensures IsInt(c, Key(e)) && IntAt(c, Key(e)) in nodeids
    {
      assert Passes(In(Key(e), Ids(rows)), c);
      var id := IntAt(c, Key(e));
      var i :| 0 <= i < |rows| && Ids(rows)[i] == id;
    }
  }

  /** If the matched rows of the batch are the node's own neighbours, in an order that they may have, its list has
      naive trees. */
  lemma SliceIsNaive(db: Database, e: Edge, sub: Query, rows: seq<Row>, i: nat, m: Matcher, ts: seq<Tree>,
                     batch: seq<Row>)
    requires ValidDatabase(db) && !Rel(e).ManyToOne? && i < |rows|
    requires AreNaiveTrees(db, sub, SubFields(e, sub), batch, ts)
    requires Arranges(db, e, sub, PickRows(batch, SelectorFor(m, IntAt(rows[i], Id))), Neighbours(db, e, sub, rows[i]))
    ensures IsToManyResult(db, e, sub, rows, i, ListTrees(m, rows, ts, batch)[i])
  {
    if LastWithId(rows, i) {
      var s := SelectorFor(m, IntAt(rows[i], Id));
      PickTrees(db, sub, SubFields(e, sub), batch, ts, s);
      assert IsNaiveEdge(db, e, sub, rows[i], Pick(ts, batch, s));
    }
  }

  /** The list of node `i` is the slice of the batched result that belongs to it. */
  lemma ManySlice(db: Database, e: Edge, sub: Query, rows: seq<Row>, i: nat)
    requires ValidDatabase(db) && Rel(e).OneToMany? && i < |rows|
    ensures Neighbours(db, e, sub, rows[i]) ==
            PickRows(Fetch(db, sub, In(Key(e), Ids(rows))), SelectorFor(OnKey(Key(e)), IntAt(rows[i], Id)))
  {
    assert Ids(rows)[i] == IntAt(rows[i], Id);
    BatchedSlice(db, sub, Key(e), Ids(rows), IntAt(rows[i], Id));
  }

  /** The children's key columns, as read from the loaded objects. */
  lemma ChildKeys(db: Database, e: Edge, sub: Query, neighbours: seq<Node>, fks: seq<int>, heap: set<Node>)
    requires ValidDatabase(db) && WellTyped(sub) && sub.entity == Target(e) && Rel(e).OneToMany?
    requires Closed(heap) && (forall n | n in neighbours :: n in heap)
    requires AreNaiveTrees(db, sub, SubFields(e, sub), Fetch(db, sub, In(Key(e), fks)), TreesOf(neighbours))
    ensures var childRows := Fetch(db, sub, In(Key(e), fks));
            |neighbours| == |childRows| && forall j | 0 <= j < |neighbours| ::
      IsInt(neighbours[j].fields, Key(e)) == IsInt(childRows[j], Key(e)) &&
      IntAt(neighbours[j].fields, Key(e)) == IntAt(childRows[j], Key(e))
  {
    var childRows := Fetch(db, sub, In(Key(e), fks));
    FetchMembers(db, sub, In(Key(e), fks));
    forall j | 0 <= j < |neighbours|
      ensures IsInt(neighbours[j].fields, Key(e)) == IsInt(childRows[j], Key(e)) &&
              IntAt(neighbours[j].fields, Key(e)) == IntAt(childRows[j], Key(e))
    {
      FieldsOf(db, sub, SubFields(e, sub), neighbours, childRows, heap, j);
      ChildKeyIsKept(e, sub, childRows[j]);
    }
  }

  lemma FieldsOf(db: Database, sub: Query, fields: seq<Column>, neighbours: seq<Node>, childRows: seq<Row>,
                 heap: set<Node>, j: nat)
    requires ValidDatabase(db) && j < |neighbours|
    requires Closed(heap) && (forall n | n in neighbours :: n in heap)
    requires AreNaiveTrees(db, sub, fields, childRows, TreesOf(neighbours))
    ensures |childRows| == |neighbours|
    ensures neighbours[j].fields == Decode(sub.entity, fields, sub.with.Keys, childRows[j])
  {
    assert TreesOf(neighbours)[j] == neighbours[j].tree;
    assert Settled(neighbours[j], heap);
  }

  // ---- Many-to-one ----

  /** The rows of the batched query are the neighbours of the nodes with a foreign key. */
  lemma OneMembers(db: Database, e: Edge, sub: Query, rows: seq<Row>, ids: seq<int>)
    requires ValidDatabase(db) && Rel(e).ManyToOne? && KeysOnce(Key(e), rows, ids)
    ensures AllNeighbours(db, e, sub, rows, Fetch(db, sub, In(Id, ids)))
  {
    var batch := Fetch(db, sub, In(Id, ids));
    FetchMembers(db, sub, In(Id, ids));
    forall r | r in batch
      ensures exists i | 0 <= i < |rows| :: r in Neighbours(db, e, sub, rows[i])
    {
      assert Passes(In(Id, ids), r) && HasKey(Key(e), rows, IntAt(r, Id));
      var row :| row in rows && Holds(row, Key(e), IntAt(r, Id));
      var i :| 0 <= i < |rows| && rows[i] == row;
      FetchMembers(db, sub, In(Id, [IntAt(r, Id)]));
      assert r in Neighbours(db, e, sub, rows[i]);
    }
    forall i | 0 <= i < |rows|
      ensures forall r | r in Neighbours(db, e, sub, rows[i]) :: r in batch
    {
      FetchMembers(db, sub, In(Id, [IntAt(rows[i], Key(e))]));
      assert rows[i] in rows;
    }
  }

  /** If some node has a foreign key, the batched query fails exactly when a node's own query does. */
  lemma OneFails(db: Database, e: Edge, sub: Query, rows: seq<Row>, ids: seq<int>)
    requires ValidDatabase(db) && Rel(e).ManyToOne? && KeysOnce(Key(e), rows, ids)
    ensures ids != [] ==> (QueryFails(db, sub, sub.fields, Fetch(db, sub, In(Id, ids))) <==>
                           SomeEdgeFails(db, e, sub, rows))
    ensures ids == [] ==> !SomeEdgeFails(db, e, sub, rows) && forall i | 0 <= i < |rows| :: !IsInt(rows[i], Key(e))
  {
    assert forall i | 0 <= i < |rows| :: rows[i] in rows;
    if ids != [] {
      OneMembers(db, e, sub, rows, ids);
      assert ids[0] in ids && HasKey(Key(e), rows, ids[0]);
      var row :| row in rows && Holds(row, Key(e), ids[0]);
      assert RunsQuery(e, row);
      BatchFails(db, e, sub, rows, Fetch(db, sub, In(Id, ids)));
    }
  }

  /** Every neighbour carries its id, and the id is a foreign key of this level. */
  lemma OneBatch(db: Database, sub: Query, ids: seq<int>, neighbours: seq<Node>, heap: set<Node>)
    requires ValidDatabase(db) && WellTyped(sub) && HasId(sub.entity)
    requires Delivers(Success(neighbours), db, sub, sub.fields, Fetch(db, sub, In(Id, ids)), heap)
    ensures var childRows := Fetch(db, sub, In(Id, ids));
            && |neighbours| == |childRows|
            && (forall j | 0 <= j < |neighbours| ::
                  IsInt(childRows[j], Id) && IntAt(neighbours[j].fields, Id) == IntAt(childRows[j], Id))
            && (forall c | c in childRows :: IntAt(c, Id) in ids)
  {
    var childRows := Fetch(db, sub, In(Id, ids));
    FetchMembers(db, sub, In(Id, ids));
    forall j | 0 <= j < |neighbours|
      ensures IsInt(childRows[j], Id) && IntAt(neighbours[j].fields, Id) == IntAt(childRows[j], Id)
    {
      FieldsOf(db, sub, sub.fields, neighbours, childRows, heap, j);
      OwnIdIsKept(sub.entity, sub.fields, sub.with.Keys, childRows[j]);
    }
    forall c | c in childRows
      ensures IntAt(c, Id) in ids
    {
      assert Passes(In(Id, ids), c);
    }
  }

  function LastOf(ts: seq<Tree>): Option<seq<Tree>> {
    if ts == [] then None else Some([ts[|ts| - 1]])
  }

  /** The trees of the neighbours that a many-to-one loader leaves. */
  ghost function OneTrees(key: Column, rows: seq<Row>, ts: seq<Tree>, batch: seq<Row>)
    : (results: seq<Option<seq<Tree>>>)
    requires |ts| == |batch|
  {
    seq(|rows|, i requires 0 <= i < |rows| =>
      if IsInt(rows[i], key) then LastOf(Pick(ts, batch, ByKey(Id, IntAt(rows[i], key)))) else None)
  }

  lemma TreesOfOne(key: Column, rows: seq<Row>, neighbours: seq<Node>, batch: seq<Row>, i: nat)
    requires i < |rows| && |neighbours| == |batch|
    ensures var one := OneFor(key, rows, neighbours, batch, i);
            && (forall n | n in one :: n in neighbours)
            && OneTrees(key, rows, TreesOf(neighbours), batch)[i] == if one == [] then None else Some(TreesOf(one))
  {
    if IsInt(rows[i], key) {
      var s := ByKey(Id, IntAt(rows[i], key));
      TreesOfPicked(neighbours, batch, s);
      PickSubset(neighbours, batch, s);
      LastTree(Pick(neighbours, batch, s));
    }
  }

  lemma LastTree(nodes: seq<Node>)
    ensures var one, ts := if nodes == [] then [] else [nodes[|nodes| - 1]], TreesOf(nodes);
            && (forall n | n in one :: n in nodes)
            && LastOf(ts) == if one == [] then None else Some(TreesOf(one))
  {
    assert |TreesOf(nodes)| == |nodes|;
    if nodes != [] {
      assert TreesOf([nodes[|nodes| - 1]]) == [TreesOf(nodes)[|nodes| - 1]];
    }
  }

  /** The neighbour of node `i` is a naively loaded one. */
  lemma OneSlice(db: Database, e: Edge, sub: Query, rows: seq<Row>, ids: seq<int>, i: nat, ts: seq<Tree>)
    requires ValidDatabase(db) && Rel(e).ManyToOne? && HasId(sub.entity) && i < |rows|
    requires KeysOnce(Key(e), rows, ids)
    requires AreNaiveTrees(db, sub, sub.fields, Fetch(db, sub, In(Id, ids)), ts)
    ensures IsNaiveResult(db, e, sub, rows[i], OneTrees(Key(e), rows, ts, Fetch(db, sub, In(Id, ids)))[i])
  {
    if IsInt(rows[i], Key(e)) {
      var fk, batch := IntAt(rows[i], Key(e)), Fetch(db, sub, In(Id, ids));
      assert rows[i] in rows;
      BatchedSlice(db, sub, Id, ids, fk);
      FetchById(db, sub, fk);
      PickTrees(db, sub, sub.fields, batch, ts, ByKey(Id, fk));
      SingleIsNaive(db, e, sub, rows[i], Pick(ts, batch, ByKey(Id, fk)));
    }
  }

  lemma SingleIsNaive(db: Database, e: Edge, sub: Query, row: Row, ts: seq<Tree>)
    requires ValidDatabase(db) && Rel(e).ManyToOne? && |Neighbours(db, e, sub, row)| <= 1
    requires AreNaiveTrees(db, sub, sub.fields, Neighbours(db, e, sub, row), ts)
    ensures IsNaiveResult(db, e, sub, row, LastOf(ts))
  {
    var rows := Neighbours(db, e, sub, row);
    assert Arranges(db, e, sub, rows, rows);
    assert ts != [] ==> ts == [ts[|ts| - 1]];
  }

  lemma OneSlices(db: Database, e: Edge, sub: Query, nodes: seq<Node>, before: seq<map<Edge, seq<Node>>>,
                  rows: seq<Row>, ids: seq<int>, neighbours: seq<Node>, heap: set<Node>)
    returns (results: seq<Option<seq<Tree>>>)
    requires ValidDatabase(db) && Rel(e).ManyToOne? && HasId(sub.entity) && |nodes| == |rows|
    requires KeysOnce(Key(e), rows, ids)
    requires |neighbours| == |Fetch(db, sub, In(Id, ids))| && (forall n | n in neighbours :: n in heap)
    requires AreNaiveTrees(db, sub, sub.fields, Fetch(db, sub, In(Id, ids)), TreesOf(neighbours))
    requires OnesAre(nodes, before, e, OnesFor(Key(e), rows, neighbours, Fetch(db, sub, In(Id, ids))))
    ensures AreNaiveResults(db, e, sub, rows, results) && AllEdgesSet(nodes, before, e, results, heap)
  {
    results := OneTrees(Key(e), rows, TreesOf(neighbours), Fetch(db, sub, In(Id, ids)));
    forall i | 0 <= i < |nodes|
      ensures IsNaiveResult(db, e, sub, rows[i], results[i]) && EdgeSet(nodes[i], before[i], e, results[i], heap)
    {
      OneSlice(db, e, sub, rows, ids, i, TreesOf(neighbours));
      TreesOfOne(Key(e), rows, neighbours, Fetch(db, sub, In(Id, ids)), i);
    }
  }

  /** Without any foreign key there is nothing to load. */
  lemma NoKeys(db: Database, e: Edge, sub: Query, nodes: seq<Node>, rows: seq<Row>)
    returns (results: seq<Option<seq<Tree>>>)
    requires ValidDatabase(db) && Rel(e).ManyToOne? && |nodes| == |rows|
    requires forall i | 0 <= i < |rows| :: !IsInt(rows[i], Key(e))
    ensures AreNaiveResults(db, e, sub, rows, results) && AllEdgesSet(nodes, EdgesOf(nodes), e, results, {})
  {
    results := seq(|rows|, i => None);
  }

  /** `loadProxy`, `loadParent`, `loadAccount`, `loadGroup`. Nodes may share an id or a foreign key. */
  method LoadOne(db: Database, e: Edge, sub: Query, nodes: seq<Node>, ghost rows: seq<Row>,
                 ghost before: seq<map<Edge, seq<Node>>>)
    returns (r: Result<()>, ghost results: seq<Option<seq<Tree>>>, ghost heap: set<Node>)
    requires ValidDatabase(db) && WellTyped(sub) && sub.entity == Target(e) && Rel(e).ManyToOne?
    requires |nodes| == |rows| && Apart(nodes) && before == EdgesOf(nodes)
    requires forall i | 0 <= i < |nodes| ::
      IsInt(nodes[i].fields, Key(e)) == IsInt(rows[i], Key(e)) &&
      IntAt(nodes[i].fields, Key(e)) == IntAt(rows[i], Key(e))
    modifies nodes`edges
    ensures r.Failure? <==> SomeEdgeFails(db, e, sub, rows)
    ensures r.Failure? ==> r.error.InvalidField?
    ensures fresh(heap) && Closed(heap)
    ensures r.Success? ==>
              AreNaiveResults(db, e, sub, rows, results) && AllEdgesSet(nodes, before, e, results, heap)
    decreases sub, 5
  {
    var ids, nodeids := CollectForeignKeys(Key(e), nodes, rows);
    OneFails(db, e, sub, rows, ids);
    results := [];
    if |ids| == 0 {
      results := NoKeys(db, e, sub, nodes, rows);
      return Success(()), results, {};
    }
    var res;
    res, heap := All(db, sub, sub.fields, In(Id, ids));
    if res.Failure? {
      return Failure(res.error), [], {};
    }
    r, results := AttachOnes(db, e, sub, nodes, ids, nodeids, res.value, rows, before, heap);
  }

  method AttachOnes(db: Database, e: Edge, sub: Query, nodes: seq<Node>, ids: seq<int>, nodeids: map<int, seq<Node>>,
                    neighbours: seq<Node>, ghost rows: seq<Row>, ghost before: seq<map<Edge, seq<Node>>>,
                    ghost heap: set<Node>)
    returns (r: Result<()>, ghost results: seq<Option<seq<Tree>>>)
    requires ValidDatabase(db) && WellTyped(sub) && HasId(sub.entity) && Rel(e).ManyToOne?
    requires |nodes| == |rows| && Apart(nodes) && before == EdgesOf(nodes) && forall n | n in heap :: n !in nodes
    requires KeysOnce(Key(e), rows, ids) && GroupedByKey(Key(e), nodes, rows, ids, nodeids)
    requires Delivers(Success(neighbours), db, sub, sub.fields, Fetch(db, sub, In(Id, ids)), heap)
    modifies nodes`edges
    ensures r.Success? && AreNaiveResults(db, e, sub, rows, results) && AllEdgesSet(nodes, before, e, results, heap)
  {
    OneBatch(db, sub, ids, neighbours, heap);
    r := AttachOne(e, Key(e), nodes, ids, nodeids, neighbours, rows, Fetch(db, sub, In(Id, ids)), before);
    results := OneSlices(db, e, sub, nodes, before, rows, ids, neighbours, heap);
  }

  // ---- Many-to-many ----

  /** The owners collected for a neighbour are the nodes that the joined result links to it. */
  lemma LinkOwners(nodes: seq<Node>, rows: seq<Row>, byID: map<int, Node>, last: map<int, nat>, joined: seq<Joined>,
                   r: Row)
    requires |nodes| == |rows| && Apart(nodes) && IndexedById(nodes, rows, byID, last)
    requires RowsById(joined) && r in FirstRows(joined)
    ensures AreOwners(OnJoined(joined), nodes, rows, r, Owners(joined, byID, IntAt(r, Id)))
  {
    var owners := Owners(joined, byID, IntAt(r, Id));
    FirstRowsFromJoined(joined);
    var anOut :| Joined(anOut, r) in joined;
    assert forall j | j in joined && IntAt(j.row, Id) == IntAt(r, Id) :: j.row == Joined(anOut, r).row;
    forall n | n in owners
      ensures n in nodes
    {
      var j :| j in joined && IntAt(j.row, Id) == IntAt(r, Id) && j.out in byID && byID[j.out] == n;
      assert nodes[last[j.out]] == n;
    }
    forall i | 0 <= i < |rows|
      ensures nodes[i] in owners <==>
              LastWithId(rows, i) && Hit(SelectorFor(OnJoined(joined), IntAt(rows[i], Id)), r)
    {
      LastIsLast(nodes, rows, byID, last, i);
      if nodes[i] in owners {
        var j :| j in joined && IntAt(j.row, Id) == IntAt(r, Id) && j.out in byID && byID[j.out] == nodes[i];
        assert last[j.out] == i && j == Joined(j.out, r);
      }
      if Joined(IntAt(rows[i], Id), r) in joined && LastWithId(rows, i) {
        var j := Joined(IntAt(rows[i], Id), r);
        assert j in joined && byID[j.out] == nodes[i];
      }
    }
  }

  /** Node `i` gets the trees of the rows that the joined result links to it, in the order of the created objects. */
  ghost predicate IsLinkedResult(db: Database, sub: Query, rows: seq<Row>, i: nat, joined: seq<Joined>,
                                 result: Option<seq<Tree>>)
    requires ValidDatabase(db) && i < |rows|
  {
    && result.Some?
    && if LastWithId(rows, i) then
         AreNaiveTrees(db, sub, sub.fields, LinkedRows(joined, IntAt(rows[i], Id)), result.value)
       else result.value == []
  }

  ghost predicate AreLinkedResults(db: Database, sub: Query, rows: seq<Row>, joined: seq<Joined>,
                                   results: seq<Option<seq<Tree>>>)
    requires ValidDatabase(db)
  {
    |results| == |rows| && forall i | 0 <= i < |rows| :: IsLinkedResult(db, sub, rows, i, joined, results[i])
  }

  /** In whatever order the join was returned, these results are to-many results. */
  lemma LinkedIsToMany(db: Database, e: Edge, sub: Query, rows: seq<Row>, joined: seq<Joined>,
                       results: seq<Option<seq<Tree>>>)
    requires ValidDatabase(db) && Rel(e).ManyToMany? && HasId(sub.entity)
    requires IsJoinResult(db, e, sub, Ids(rows), joined) && AreLinkedResults(db, sub, rows, joined, results)
    ensures AreToManyResults(db, e, sub, rows, results)
  {
    forall i | 0 <= i < |rows|
      ensures IsToManyResult(db, e, sub, rows, i, results[i])
    {
      assert IsLinkedResult(db, sub, rows, i, joined, results[i]) && Ids(rows)[i] == IntAt(rows[i], Id);
      LinkedIsArranged(db, e, sub, Ids(rows), joined, rows[i]);
    }
  }

  /** The list that a many-to-many load puts on a node is that of the reference if and only if no two neighbours come
      first in the joined result against the order of the node's own query. */
  lemma LinkedListIff(db: Database, e: Edge, sub: Query, rows: seq<Row>, i: nat, joined: seq<Joined>,
                      result: Option<seq<Tree>>)
    requires ValidDatabase(db) && Rel(e).ManyToMany? && HasId(sub.entity)
    requires IsJoinResult(db, e, sub, Ids(rows), joined)
    requires i < |rows| && LastWithId(rows, i) && IsLinkedResult(db, sub, rows, i, joined, result)
    ensures AreNaiveTrees(db, sub, sub.fields, Neighbours(db, e, sub, rows[i]), result.value) <==>
            !AgainstQuery(Neighbours(db, e, sub, rows[i]), joined)
  {
    var mine, own := LinkedRows(joined, IntAt(rows[i], Id)), Neighbours(db, e, sub, rows[i]);
    assert Ids(rows)[i] == IntAt(rows[i], Id);
    LinkedOrderIff(db, e, sub, Ids(rows), joined, rows[i]);
    LinkedMembers(db, e, sub, Ids(rows), joined, rows[i]);
    NeighboursInTable(db, e, sub, rows[i]);
    if AreNaiveTrees(db, sub, sub.fields, own, result.value) {
      TreesTellRows(db, sub, mine, own, result.value);
    }
  }

  /** Rows of one table that have the same trees are the same. */
  lemma TreesTellRows(db: Database, sub: Query, a: seq<Row>, b: seq<Row>, ts: seq<Tree>)
    requires ValidDatabase(db) && HasId(sub.entity)
    requires forall r | r in a || r in b :: r in db.tables[sub.entity] && ValidRow(sub.entity, r)
    requires AreNaiveTrees(db, sub, sub.fields, a, ts) && AreNaiveTrees(db, sub, sub.fields, b, ts)
    ensures a == b
  {
    forall k | 0 <= k < |a|
      ensures a[k] == b[k]
    {
      assert a[k] in a && b[k] in b;
      assert IsNaiveTree(db, sub, sub.fields, a[k], ts[k]) && IsNaiveTree(db, sub, sub.fields, b[k], ts[k]);
      OwnIdIsKept(sub.entity, sub.fields, sub.with.Keys, a[k]);
      OwnIdIsKept(sub.entity, sub.fields, sub.with.Keys, b[k]);
      OneRowById(db.tables[sub.entity], a[k], b[k]);
    }
  }

  lemma OneRowById(rows: seq<Row>, r: Row, s: Row)
    requires DistinctIds(rows) && r in rows && s in rows && IntAt(r, Id) == IntAt(s, Id)
    ensures r == s
  {
  }

  /** `loadGroups`, `loadAccounts`; `joined` is what the database returned, in an order of its own. */
  method LoadManyToMany(db: Database, e: Edge, sub: Query, nodes: seq<Node>, ghost rows: seq<Row>,
                        ghost before: seq<map<Edge, seq<Node>>>)
    returns (r: Result<()>, ghost joined: seq<Joined>, ghost results: seq<Option<seq<Tree>>>, ghost heap: set<Node>)
    requires ValidDatabase(db) && WellTyped(sub) && sub.entity == Target(e) && Rel(e).ManyToMany?
    requires |nodes| == |rows| > 0 && Apart(nodes) && before == EdgesOf(nodes)
    requires forall i | 0 <= i < |nodes| :: IntAt(nodes[i].fields, Id) == IntAt(rows[i], Id)
    modifies nodes`edges
    ensures r.Failure? <==> SomeEdgeFails(db, e, sub, rows)
    ensures r.Failure? ==> r.error.InvalidField?
    ensures fresh(heap) && Closed(heap)
    ensures r.Success? ==> IsJoinResult(db, e, sub, Ids(rows), joined)
    ensures r.Success? ==>
              AreLinkedResults(db, sub, rows, joined, results) && AllEdgesSet(nodes, before, e, results, heap)
    decreases sub, 5
  {
    results := [];
    var edgeIDs, byID;
    ghost var last;
    edgeIDs, byID, last := InitEdges(e, nodes, rows, before);
    IdsAreIndexed(nodes, rows, byID, last);
    var res, nids;
    res, nids, joined, heap := AllLinked(db, e, sub, edgeIDs, byID);
    JoinedFails(db, e, sub, rows, joined);
    if res.Failure? {
      return Failure(res.error), joined, [], {};
    }
    r, results := AttachJoined(db, e, sub, nodes, byID, nids, res.value, rows, last, joined, before, heap);
  }

  method AttachJoined(db: Database, e: Edge, sub: Query, nodes: seq<Node>, ghost byID: map<int, Node>,
                      nids: map<int, set<Node>>, neighbours: seq<Node>, ghost rows: seq<Row>,
                      ghost last: map<int, nat>, ghost joined: seq<Joined>, ghost before: seq<map<Edge, seq<Node>>>,
                      ghost heap: set<Node>)
    returns (r: Result<()>, ghost results: seq<Option<seq<Tree>>>)
    requires ValidDatabase(db) && WellTyped(sub) && HasId(sub.entity) && Rel(e).ManyToMany?
    requires |nodes| == |rows| && Apart(nodes) && IndexedById(nodes, rows, byID, last)
    requires ListsAre(nodes, before, e, seq(|nodes|, i => [])) && forall n | n in heap :: n !in nodes
    requires IsJoinResult(db, e, sub, Ids(rows), joined) && CollectsOwners(joined, byID, nids)
    requires Delivers(Success(neighbours), db, sub, sub.fields, FirstRows(joined), heap)
    modifies nodes`edges
    ensures r.Success?
    ensures AreLinkedResults(db, sub, rows, joined, results) && AllEdgesSet(nodes, before, e, results, heap)
  {
    LinkedBatch(db, e, sub, nodes, rows, byID, last, joined, nids, neighbours, heap);
    r := AttachLinked(e, OnJoined(joined), nodes, nids, neighbours, rows, FirstRows(joined), before);
    results := LinkedSlices(db, e, sub, nodes, before, rows, joined, neighbours, heap);
  }

  /** The sub-query of a many-to-many loader: `sqlAll` with the wrapped `Assign`, which also collects `nids`. */
  method AllLinked(db: Database, e: Edge, sub: Query, ids: seq<int>, byID: map<int, Node>)
    returns (r: Result<seq<Node>>, nids: map<int, set<Node>>, ghost joined: seq<Joined>, ghost heap: set<Node>)
    requires ValidDatabase(db) && WellTyped(sub) && HasId(sub.entity) && forall id | id in ids :: id in byID
    ensures IsJoinResult(db, e, sub, ids, joined)
    ensures fresh(heap) && Delivers(r, db, sub, sub.fields, FirstRows(joined), heap)
    ensures r.Success? ==> CollectsOwners(joined, byID, nids)
    decreases sub, 4
  {
    var err := PrepareQuery(sub, sub.fields);
    if err.Some? {
      OrderedIsJoinResult(db, e, sub, ids);
      return Failure(err.value), map[], db.joinOrder(JoinFor(db, e, sub, ids), sub.rank), {};
    }
    var returned := QueryJoined(db, e, sub, ids);
    joined := returned;
    JoinResultRows(db, e, sub, ids, returned);
    FirstRowsAreValid(db, e, sub, ids, returned);
    var neighbours;
    neighbours, nids, err := ScanJoined(sub, sub.fields, returned, byID);
    if err.Some? {
      return Failure(TypeMismatch), map[], joined, {};
    }
    r, heap := LoadEdges(db, sub, sub.fields, neighbours, FirstRows(returned));
  }

  lemma IdsAreIndexed(nodes: seq<Node>, rows: seq<Row>, byID: map<int, Node>, last: map<int, nat>)
    requires |nodes| == |rows| && IndexedById(nodes, rows, byID, last)
    ensures forall id | id in Ids(rows) :: id in byID
  {
  }

  /** Every neighbour has its id, and the joined result links it to its owners: no error is left to report. */
  lemma LinkedBatch(db: Database, e: Edge, sub: Query, nodes: seq<Node>, rows: seq<Row>, byID: map<int, Node>,
                    last: map<int, nat>, joined: seq<Joined>, nids: map<int, set<Node>>, neighbours: seq<Node>,
                    heap: set<Node>)
    requires ValidDatabase(db) && WellTyped(sub) && Rel(e).ManyToMany? && HasId(sub.entity)
    requires |nodes| == |rows| && Apart(nodes) && IndexedById(nodes, rows, byID, last)
    requires IsJoinResult(db, e, sub, Ids(rows), joined) && CollectsOwners(joined, byID, nids)
    requires Delivers(Success(neighbours), db, sub, sub.fields, FirstRows(joined), heap)
    ensures var childRows := FirstRows(joined);
            && |neighbours| == |childRows|
            && (forall j | 0 <= j < |neighbours| ::
                  IsInt(childRows[j], Id) && IntAt(neighbours[j].fields, Id) == IntAt(childRows[j], Id))
            && (forall c | c in childRows :: IntAt(c, Id) in nids)
            && OwnersKnown(OnJoined(joined), nodes, rows, childRows, nids)
  {
    var childRows := FirstRows(joined);
    JoinResultRows(db, e, sub, Ids(rows), joined);
    FirstRowsAreValid(db, e, sub, Ids(rows), joined);
    forall j | 0 <= j < |childRows|
      ensures IsInt(childRows[j], Id) && IntAt(neighbours[j].fields, Id) == IntAt(childRows[j], Id)
    {
      FieldsOf(db, sub, sub.fields, neighbours, childRows, heap, j);
      OwnIdIsKept(sub.entity, sub.fields, sub.with.Keys, childRows[j]);
    }
    forall c | c in childRows
      ensures AreOwners(OnJoined(joined), nodes, rows, c, Owners(joined, byID, IntAt(c, Id)))
    {
      LinkOwners(nodes, rows, byID, last, joined, c);
    }
  }

  lemma LinkedSlices(db: Database, e: Edge, sub: Query, nodes: seq<Node>, before: seq<map<Edge, seq<Node>>>,
                     rows: seq<Row>, joined: seq<Joined>, neighbours: seq<Node>, heap: set<Node>)
    returns (results: seq<Option<seq<Tree>>>)
    requires ValidDatabase(db) && |nodes| == |rows|
    requires |neighbours| == |FirstRows(joined)| && (forall n | n in neighbours :: n in heap)
    requires AreNaiveTrees(db, sub, sub.fields, FirstRows(joined), TreesOf(neighbours))
    requires ListsAre(nodes, before, e, ListsFor(OnJoined(joined), rows, neighbours, FirstRows(joined)))
    ensures AreLinkedResults(db, sub, rows, joined, results) && AllEdgesSet(nodes, before, e, results, heap)
  {
    results := ListTrees(OnJoined(joined), rows, TreesOf(neighbours), FirstRows(joined));
    forall i | 0 <= i < |nodes|
      ensures IsLinkedResult(db, sub, rows, i, joined, results[i]) && EdgeSet(nodes[i], before[i], e, results[i], heap)
    {
      PickTrees(db, sub, sub.fields, FirstRows(joined), TreesOf(neighbours), ByJoined(joined, IntAt(rows[i], Id)));
      TreesOfList(OnJoined(joined), rows, neighbours, FirstRows(joined), i);
    }
  }

  // ---- All edges of one level ----

  /** `prepareQuery`: every selected field must be a column of the entity; the first that is not is reported. */
  method PrepareQuery(q: Query, fields: seq<Column>) returns (err: Option<LoadError>)
    ensures err.None? <==> ValidFields(q.entity, fields)
    ensures err.Some? ==> exists k | 0 <= k < |fields| ::
              && err == Some(InvalidField(fields[k])) && !ValidColumn(q.entity, fields[k])
              && ValidFields(q.entity, fields[..k])
  {
    for i := 0 to |fields|
      invariant forall j | 0 <= j < i :: ValidColumn(q.entity, fields[j])
    {
      if !ValidColumn(q.entity, fields[i]) {
        assert ValidFields(q.entity, fields[..i]);
        return Some(InvalidField(fields[i]));
      }
    }
    err := None;
  }

  /** The edges loaded so far, of a node created for `row`: exactly those of `done` that the query asks for. */
  ghost predicate EdgesLoaded(db: Database, q: Query, edges: map<Edge, seq<Node>>, row: Row, done: seq<Edge>,
                              heap: set<Node>)
    requires ValidDatabase(db)
    reads heap
  {
    && (forall e :: e in edges <==> e in done && e in q.with && HasEdge(db, e, q.with[e], row))
    && (forall e, c | e in edges && c in edges[e] :: c in heap)
    && (forall e | e in edges :: e in q.with && IsNaiveEdge(db, e, q.with[e], row, TreesOf(edges[e])))
  }

  ghost predicate AllEdgesLoaded(db: Database, q: Query, edges: seq<map<Edge, seq<Node>>>, rows: seq<Row>,
                                 done: seq<Edge>, heap: set<Node>)
    requires ValidDatabase(db)
    reads heap
  {
    |edges| == |rows| && forall i | 0 <= i < |rows| :: EdgesLoaded(db, q, edges[i], rows[i], done, heap)
  }

  lemma EdgesLoadedStep(db: Database, q: Query, n: Node, before: map<Edge, seq<Node>>, row: Row, done: seq<Edge>,
                        e: Edge, result: Option<seq<Tree>>, heap: set<Node>, more: set<Node>)
    requires ValidDatabase(db) && e in q.with && e !in done
    requires EdgesLoaded(db, q, before, row, done, heap)
    requires IsNaiveResult(db, e, q.with[e], row, result) && EdgeSet(n, before, e, result, more)
    ensures EdgesLoaded(db, q, n.edges, row, done + [e], heap + more)
  {
    assert forall x :: x in done + [e] <==> x in done || x == e;
    forall x | x in n.edges
      ensures x in q.with && IsNaiveEdge(db, x, q.with[x], row, TreesOf(n.edges[x]))
    {
      if x != e {
        assert x in before && n.edges[x] == before[x];
      }
    }
    forall x, c | x in n.edges && c in n.edges[x]
      ensures c in heap + more
    {
      if x != e {
        assert x in before && n.edges[x] == before[x];
      }
    }
  }

  lemma AllEdgesLoadedStep(db: Database, q: Query, nodes: seq<Node>, before: seq<map<Edge, seq<Node>>>,
                           rows: seq<Row>, done: seq<Edge>, e: Edge, results: seq<Option<seq<Tree>>>,
                           heap: set<Node>, more: set<Node>)
    requires ValidDatabase(db) && e in q.with && e !in done && |nodes| == |rows|
    requires AllEdgesLoaded(db, q, before, rows, done, heap)
    requires AreNaiveResults(db, e, q.with[e], rows, results) && AllEdgesSet(nodes, before, e, results, more)
    ensures AllEdgesLoaded(db, q, EdgesOf(nodes), rows, done + [e], heap + more)
  {
    forall i | 0 <= i < |rows|
      ensures EdgesLoaded(db, q, nodes[i].edges, rows[i], done + [e], heap + more)
    {
      EdgesLoadedStep(db, q, nodes[i], before[i], rows[i], done, e, results[i], heap, more);
    }
  }

  lemma EdgesLoadedSkip(db: Database, q: Query, edges: seq<map<Edge, seq<Node>>>, rows: seq<Row>, done: seq<Edge>,
                        e: Edge, heap: set<Node>)
    requires ValidDatabase(db) && e !in q.with && AllEdgesLoaded(db, q, edges, rows, done, heap)
    ensures AllEdgesLoaded(db, q, edges, rows, done + [e], heap)
  {
    forall i | 0 <= i < |rows|
      ensures EdgesLoaded(db, q, edges[i], rows[i], done + [e], heap)
    {
      assert EdgesLoaded(db, q, edges[i], rows[i], done, heap);
    }
  }

  /** With distinct ids every node is the last with its id. */
  lemma DistinctToMany(db: Database, e: Edge, sub: Query, rows: seq<Row>, results: seq<Option<seq<Tree>>>)
    requires ValidDatabase(db) && DistinctIds(rows) && AreToManyResults(db, e, sub, rows, results)
    ensures AreNaiveResults(db, e, sub, rows, results)
  {
    assert forall i | 0 <= i < |rows| :: IsToManyResult(db, e, sub, rows, i, results[i]) && LastWithId(rows, i);
  }

  /** What the loaders read from the nodes of one level. */
  ghost predicate ReadsAs(nodes: seq<Node>, q: Query, fields: seq<Column>, rows: seq<Row>)
    reads nodes`fields, nodes`loaded
  {
    && |nodes| == |rows|
    && forall i | 0 <= i < |nodes| ::
         nodes[i].entity == q.entity && nodes[i].loaded == q.with.Keys &&
         nodes[i].fields == Decode(q.entity, fields, q.with.Keys, rows[i])
  }

  /** The loader of one requested edge. */
  method LoadEdge(db: Database, q: Query, fields: seq<Column>, e: Edge, nodes: seq<Node>, ghost rows: seq<Row>,
                  ghost before: seq<map<Edge, seq<Node>>>)
    returns (r: Result<()>, ghost results: seq<Option<seq<Tree>>>, ghost heap: set<Node>)
    requires ValidDatabase(db) && WellTyped(q) && e in q.with
    requires |nodes| > 0 && Apart(nodes) && ReadsAs(nodes, q, fields, rows) && before == EdgesOf(nodes)
    requires ValidTable(q.entity, rows)
    modifies nodes`edges
    ensures r.Failure? <==> SomeEdgeFails(db, e, q.with[e], rows)
    ensures r.Failure? ==> r.error.InvalidField?
    ensures fresh(heap) && Closed(heap)
    ensures r.Success? ==>
              AreNaiveResults(db, e, q.with[e], rows, results) && AllEdgesSet(nodes, before, e, results, heap)
    decreases q, 0
  {
    NodeKeys(q, fields, e, nodes, rows);
    match Rel(e)
    case ManyToOne =>
      r, results, heap := LoadOne(db, e, q.with[e], nodes, rows, before);
    case OneToMany =>
      r, results, heap := LoadMany(db, e, q.with[e], nodes, rows, before);
      if r.Success? {
        DistinctToMany(db, e, q.with[e], rows, results);
      }
    case ManyToMany =>
      ghost var joined;
      r, joined, results, heap := LoadManyToMany(db, e, q.with[e], nodes, rows, before);
      if r.Success? {
        LinkedIsToMany(db, e, q.with[e], rows, joined, results);
        DistinctToMany(db, e, q.with[e], rows, results);
      }
  }

  lemma NodeKeys(q: Query, fields: seq<Column>, e: Edge, nodes: seq<Node>, rows: seq<Row>)
    requires WellTyped(q) && e in q.with && ReadsAs(nodes, q, fields, rows)
    requires forall row | row in rows :: ValidRow(q.entity, row)
    ensures !Rel(e).ManyToOne? ==>
              HasId(q.entity) && forall i | 0 <= i < |nodes| :: IntAt(nodes[i].fields, Id) == IntAt(rows[i], Id)
    ensures Rel(e).ManyToOne? ==> forall i | 0 <= i < |nodes| ::
              IsInt(nodes[i].fields, Key(e)) == IsInt(rows[i], Key(e)) &&
              IntAt(nodes[i].fields, Key(e)) == IntAt(rows[i], Key(e))
    ensures Rel(e).ManyToMany? ==> HasId(q.with[e].entity)
  {
    forall i | 0 <= i < |nodes|
      ensures !Rel(e).ManyToOne? ==> IntAt(nodes[i].fields, Id) == IntAt(rows[i], Id)
      ensures Rel(e).ManyToOne? ==> IsInt(nodes[i].fields, Key(e)) == IsInt(rows[i], Key(e)) &&
                                    IntAt(nodes[i].fields, Key(e)) == IntAt(rows[i], Key(e))
    {
      assert rows[i] in rows;
      if Rel(e).ManyToOne? {
        ForeignKeyIsKept(q.entity, fields, q.with.Keys, rows[i], e);
      } else {
        OwnIdIsKept(q.entity, fields, q.with.Keys, rows[i]);
      }
    }
  }

  /** The tree of an object, made of the trees of its neighbours. */
  ghost function BuiltTree(n: Node, heap: set<Node>): Tree
    requires forall e, c | e in n.edges && c in n.edges[e] :: c in heap
    reads n`fields, n`loaded, n`edges, heap
  {
    Tree(n.entity, n.fields, n.loaded, map e | e in n.edges :: TreesOf(n.edges[e]))
  }

  /** Records the trees of the finished nodes. */
  ghost method SettleAll(db: Database, q: Query, fields: seq<Column>, nodes: seq<Node>, rows: seq<Row>, heap: set<Node>)
    requires ValidDatabase(db) && WellTyped(q) && Apart(nodes)
    requires Progress(db, q, fields, nodes, rows, EdgeOrder(q.entity), heap) && forall n | n in heap :: n !in nodes
    modifies nodes`tree
    ensures Closed(heap + set n | n in nodes)
    ensures AreNaiveTrees(db, q, fields, rows, TreesOf(nodes))
  {
    RecordTrees(nodes, heap, EdgesOf(nodes));
    AllSettle(db, q, fields, nodes, rows, heap);
    ClosedWith(heap, nodes);
  }

  ghost method RecordTrees(nodes: seq<Node>, heap: set<Node>, edges: seq<map<Edge, seq<Node>>>)
    requires Apart(nodes) && edges == EdgesOf(nodes) && forall n | n in heap :: n !in nodes
    requires forall i, e, c | 0 <= i < |nodes| && e in edges[i] && c in edges[i][e] :: c in heap
    modifies nodes`tree
    ensures forall i | 0 <= i < |nodes| :: Settled(nodes[i], heap)
  {
    assert forall i | 0 <= i < |nodes| :: edges[i] == nodes[i].edges;
    forall i | 0 <= i < |nodes| {
      nodes[i].tree := BuiltTree(nodes[i], heap);
    }
    assert forall i | 0 <= i < |nodes| :: edges[i] == nodes[i].edges;
    assert forall i | 0 <= i < |nodes| :: nodes[i].tree == BuiltTree(nodes[i], heap);
  }

  lemma AllSettle(db: Database, q: Query, fields: seq<Column>, nodes: seq<Node>, rows: seq<Row>, heap: set<Node>)
    requires ValidDatabase(db) && WellTyped(q) && ReadsAs(nodes, q, fields, rows)
    requires AllEdgesLoaded(db, q, EdgesOf(nodes), rows, EdgeOrder(q.entity), heap)
    requires forall i | 0 <= i < |nodes| :: Settled(nodes[i], heap)
    ensures AreNaiveTrees(db, q, fields, rows, TreesOf(nodes))
  {
    forall i | 0 <= i < |nodes|
      ensures IsNaiveTree(db, q, fields, rows[i], nodes[i].tree)
    {
      assert EdgesOf(nodes)[i] == nodes[i].edges;
      NodeSettles(db, q, fields, nodes[i], rows[i], heap);
    }
  }

  /** Objects whose edges lead into a closed heap can join it. */
  lemma ClosedWith(heap: set<Node>, nodes: seq<Node>)
    requires Closed(heap) && forall i | 0 <= i < |nodes| :: Settled(nodes[i], heap)
    ensures Closed(heap + set n | n in nodes)
  {
    var all := heap + set n | n in nodes;
    forall n | n in all
      ensures Settled(n, all)
    {
      assert Settled(n, heap);
    }
  }

  /** Once all edges are loaded, the tree of the object is a naive one. */
  lemma NodeSettles(db: Database, q: Query, fields: seq<Column>, n: Node, row: Row, heap: set<Node>)
    requires ValidDatabase(db) && WellTyped(q)
    requires n.entity == q.entity && n.loaded == q.with.Keys && n.fields == Decode(q.entity, fields, q.with.Keys, row)
    requires EdgesLoaded(db, q, n.edges, row, EdgeOrder(q.entity), heap)
    requires Settled(n, heap)
    ensures IsNaiveTree(db, q, fields, row, n.tree)
  {
    forall e | e in q.with
      ensures e in EdgeOrder(q.entity)
    {
      EdgeOrderIsComplete(e);
    }
  }

  /** Loading one of the requested edges fails for some row. */
  ghost predicate RequestFails(db: Database, q: Query, rows: seq<Row>, edges: seq<Edge>)
    requires ValidDatabase(db)
  {
    exists e | e in edges && e in q.with :: SomeEdgeFails(db, e, q.with[e], rows)
  }

  lemma RequestFailsStep(db: Database, q: Query, rows: seq<Row>, done: seq<Edge>, e: Edge)
    requires ValidDatabase(db) && !RequestFails(db, q, rows, done)
    ensures RequestFails(db, q, rows, done + [e]) <==> e in q.with && SomeEdgeFails(db, e, q.with[e], rows)
  {
    assert forall x :: x in done + [e] <==> x in done || x == e;
  }

  /** Edge `k` of these is the first one that is requested and fails. */
  ghost predicate FirstToFail(db: Database, q: Query, rows: seq<Row>, edges: seq<Edge>, k: nat)
    requires ValidDatabase(db)
  {
    && k < |edges| && edges[k] in q.with && SomeEdgeFails(db, edges[k], q.with[edges[k]], rows)
    && !RequestFails(db, q, rows, edges[..k])
  }

  /** The state of `sqlAll` between two edges. */
  ghost predicate Progress(db: Database, q: Query, fields: seq<Column>, nodes: seq<Node>, rows: seq<Row>,
                           done: seq<Edge>, heap: set<Node>)
    requires ValidDatabase(db)
    reads nodes, heap
  {
    && ReadsAs(nodes, q, fields, rows)
    && Closed(heap)
    && AllEdgesLoaded(db, q, EdgesOf(nodes), rows, done, heap)
    && !RequestFails(db, q, rows, done)
  }

  lemma ProgressSkip(db: Database, q: Query, fields: seq<Column>, nodes: seq<Node>, rows: seq<Row>,
                     done: seq<Edge>, e: Edge, heap: set<Node>)
    requires ValidDatabase(db) && e !in q.with && Progress(db, q, fields, nodes, rows, done, heap)
    ensures Progress(db, q, fields, nodes, rows, done + [e], heap)
  {
    RequestFailsStep(db, q, rows, done, e);
    EdgesLoadedSkip(db, q, EdgesOf(nodes), rows, done, e, heap);
  }

  lemma ProgressStep(db: Database, q: Query, fields: seq<Column>, nodes: seq<Node>, before: seq<map<Edge, seq<Node>>>,
                     rows: seq<Row>, done: seq<Edge>, e: Edge, results: seq<Option<seq<Tree>>>, heap: set<Node>,
                     more: set<Node>)
    requires ValidDatabase(db) && e in q.with && e !in done && ReadsAs(nodes, q, fields, rows)
    requires Closed(heap) && AllEdgesLoaded(db, q, before, rows, done, heap) && !RequestFails(db, q, rows, done)
    requires AreNaiveResults(db, e, q.with[e], rows, results)
    requires Closed(more) && AllEdgesSet(nodes, before, e, results, more)
    requires !SomeEdgeFails(db, e, q.with[e], rows)
    ensures Progress(db, q, fields, nodes, rows, done + [e], heap + more)
  {
    RequestFailsStep(db, q, rows, done, e);
    ClosedUnion(heap, more);
    AllEdgesLoadedStep(db, q, nodes, before, rows, done, e, results, heap, more);
  }

  /** One `if query := _q.withX; query != nil` block of `sqlAll`. */
  method LoadIfRequested(db: Database, q: Query, fields: seq<Column>, e: Edge, nodes: seq<Node>, ghost rows: seq<Row>,
                         ghost done: seq<Edge>, ghost heap: set<Node>)
    returns (r: Result<()>, ghost grown: set<Node>)
    requires ValidDatabase(db) && WellTyped(q) && e !in done
    requires |nodes| > 0 && Apart(nodes) && ValidTable(q.entity, rows)
    requires Progress(db, q, fields, nodes, rows, done, heap) && (forall n | n in heap :: n !in nodes)
    modifies nodes`edges
    ensures heap <= grown && fresh(grown - heap)
    ensures match r
            case Success(_) => Progress(db, q, fields, nodes, rows, done + [e], grown)
            case Failure(err) => err.InvalidField? && e in q.with && SomeEdgeFails(db, e, q.with[e], rows)
    decreases q, 1
  {
    if e !in q.with {
      ProgressSkip(db, q, fields, nodes, rows, done, e, heap);
      return Success(()), heap;
    }
    ghost var before := EdgesOf(nodes);
    ghost var results, more;
    r, results, more := LoadEdge(db, q, fields, e, nodes, rows, before);
    grown := heap + more;
    if r.Success? {
      ProgressStep(db, q, fields, nodes, before, rows, done, e, results, heap, more);
    }
  }

  /** The blocks of `sqlAll` for all edges, in their fixed order. */
  method LoadRequested(db: Database, q: Query, fields: seq<Column>, nodes: seq<Node>, ghost rows: seq<Row>)
    returns (r: Result<()>, ghost heap: set<Node>)
    requires ValidDatabase(db) && WellTyped(q)
    requires |nodes| > 0 && Apart(nodes) && ValidTable(q.entity, rows)
    requires Progress(db, q, fields, nodes, rows, [], {})
    modifies nodes`edges
    ensures fresh(heap)
    ensures match r
            case Success(_) => Progress(db, q, fields, nodes, rows, EdgeOrder(q.entity), heap)
            case Failure(err) => err.InvalidField? && exists k :: FirstToFail(db, q, rows, EdgeOrder(q.entity), k)
    decreases q, 2
  {
    heap := {};
    var order := EdgeOrder(q.entity);
    assert order[..0] == [];
    for k := 0 to |order|
      invariant fresh(heap) && Progress(db, q, fields, nodes, rows, order[..k], heap)
    {
      EdgeOrderOnce(q.entity, k);
      r, heap := LoadIfRequested(db, q, fields, order[k], nodes, rows, order[..k], heap);
      if r.Failure? {
        assert FirstToFail(db, q, rows, order, k);
        return r, {};
      }
    }
    assert order[..|order|] == order;
    r := Success(());
  }

  /** The edge-loading part of `sqlAll`. */
  method LoadEdges(db: Database, q: Query, fields: seq<Column>, nodes: seq<Node>, ghost rows: seq<Row>)
    returns (r: Result<seq<Node>>, ghost heap: set<Node>)
    requires ValidDatabase(db) && WellTyped(q) && ValidFields(q.entity, fields)
    requires Apart(nodes) && AllScanned(nodes, q, fields, rows)
    requires ValidTable(q.entity, rows)
    modifies nodes
    ensures forall n | n in heap :: n in nodes || fresh(n)
    ensures r.Success? ==> r.value == nodes
    ensures Delivers(r, db, q, fields, rows, heap)
    decreases q, 3
  {
    if |nodes| == 0 {
      return Success(nodes), {};
    }
    var res;
    NothingLoadedYet(db, q, fields, nodes, rows);
    res, heap := LoadRequested(db, q, fields, nodes, rows);
    RequestFailsQuery(db, q, fields, rows);
    if res.Failure? {
      return Failure(res.error), {};
    }
    SettleAll(db, q, fields, nodes, rows, heap);
    heap := heap + set n | n in nodes;
    r := Success(nodes);
  }

  lemma EdgeOrderOnce(entity: Entity, k: nat)
    requires k < |EdgeOrder(entity)|
    ensures EdgeOrder(entity)[k] !in EdgeOrder(entity)[..k]
    ensures EdgeOrder(entity)[..k + 1] == EdgeOrder(entity)[..k] + [EdgeOrder(entity)[k]]
  {
  }

  lemma NothingLoadedYet(db: Database, q: Query, fields: seq<Column>, nodes: seq<Node>, rows: seq<Row>)
    requires ValidDatabase(db) && AllScanned(nodes, q, fields, rows)
    ensures Progress(db, q, fields, nodes, rows, [], {})
  {
  }

  lemma RequestFailsQuery(db: Database, q: Query, fields: seq<Column>, rows: seq<Row>)
    requires ValidDatabase(db) && WellTyped(q) && ValidFields(q.entity, fields)
    ensures RequestFails(db, q, rows, EdgeOrder(q.entity)) <==> QueryFails(db, q, fields, rows)
  {
    if RequestFails(db, q, rows, EdgeOrder(q.entity)) {
      var e :| e in EdgeOrder(q.entity) && e in q.with && SomeEdgeFails(db, e, q.with[e], rows);
      var i :| 0 <= i < |rows| && EdgeFails(db, e, q.with[e], rows[i]);
      assert RowFails(db, q, rows[i]) && rows[i] in rows;
    } else {
      forall r | r in rows
        ensures !RowFails(db, q, r)
      {
        var i :| 0 <= i < |rows| && rows[i] == r;
        forall e | e in q.with
          ensures !EdgeFails(db, e, q.with[e], r)
        {
          EdgeOrderIsComplete(e);
        }
      }
    }
  }

  /** `All`: `prepareQuery`, then `sqlAll` without hooks. Whatever the query tree, and whatever order the database
      returns joins in, the loaded objects are naively loaded ones, and loading fails exactly when the naive one
      does. */
  method All(db: Database, q: Query, fields: seq<Column>, filter: InClause)
    returns (r: Result<seq<Node>>, ghost heap: set<Node>)
    requires ValidDatabase(db) && WellTyped(q)
    ensures fresh(heap) && Delivers(r, db, q, fields, Fetch(db, q, filter), heap)
    decreases q, 4
  {
    var err := PrepareQuery(q, fields);
    if err.Some? {
      return Failure(err.value), {};
    }
    var rows := Fetch(db, q, filter);
    FetchMembers(db, q, filter);
    if HasId(q.entity) {
      FetchDistinct(db, q, filter);
    }
    var nodes;
    nodes, err := ScanNodes(q, fields, rows);
    if err.Some? {
      return Failure(TypeMismatch), {};
    }
    r, heap := LoadEdges(db, q, fields, nodes, rows);
  }

  /** Where the ORDER BY of every many-to-many sub-query tells all rows apart, or the database keeps the order of the
      neighbours, the loaded trees are exactly those of the reference. */
  lemma ExactLoad(db: Database, q: Query, fields: seq<Column>, rows: seq<Row>, nodes: seq<Node>, heap: set<Node>)
    requires ValidDatabase(db) && OrderDecided(db, q)
    requires Delivers(Success(nodes), db, q, fields, rows, heap)
    ensures TreesOf(nodes) == NaiveList(db, q, fields, rows)
  {
    OneNaiveList(db, q, fields, rows, TreesOf(nodes));
  }
}
