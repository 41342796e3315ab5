/** `Parent` and `Children` are two readings of one foreign key. */
module InverseEdges {
  import opened Wrappers
  import opened Schema
  import opened Relations
  import opened NaiveLoad
  import opened NaiveTrees
  import opened Nodes
  import opened EdgeResults
  import opened EdgeAccessors

  /** Picking out of all admitted rows is the same as querying with an IN clause for one id. */
  lemma {:induction false} PickKeepAll(rows: seq<Row>, where: Row -> bool, c: Column, id: int)
    ensures PickRows(Keep(rows, where, Everything), ByKey(c, id)) == Keep(rows, where, In(c, [id]))
  {
    if rows != [] {
      var n := |rows| - 1;
      PickKeepAll(rows[..n], where, c, id);
      var kept := Keep(rows[..n], where, Everything);
      PickRowsSnoc(kept, rows[n], ByKey(c, id));
      assert kept + [] == kept;
    }
  }

  lemma QueryById(db: Database, q: Query, c: Column, id: int)
    requires ValidDatabase(db)
    ensures Fetch(db, q, In(c, [id])) == PickRows(Fetch(db, q, Everything), ByKey(c, id))
  {
    PickOrderBy(Keep(db.tables[q.entity], q.where, Everything), q.rank, ByKey(c, id));
    PickKeepAll(db.tables[q.entity], q.where, c, id);
  }

  type Pairs = multiset<(int, int)>

  /** The (parent, child) ids of one parent and its children. */
  ghost function PairsOfParent(parent: Row, children: seq<Row>): Pairs {
    if children == [] then multiset{}
    else
      var n := |children| - 1;
      PairsOfParent(parent, children[..n]) + multiset{(IntAt(parent, Id), IntAt(children[n], Id))}
  }

  /** The (parent, child) ids of one child and its parents. */
  ghost function PairsOfChild(parents: seq<Row>, child: Row): Pairs {
    if parents == [] then multiset{}
    else
      var n := |parents| - 1;
      PairsOfChild(parents[..n], child) + multiset{(IntAt(parents[n], Id), IntAt(child, Id))}
  }

  /** The pairs found by loading the children of every parent. */
  ghost function ChildrenPairs(db: Database, children: Query, parents: seq<Row>): Pairs
    requires ValidDatabase(db)
  {
    if parents == [] then multiset{}
    else
      var n := |parents| - 1;
      ChildrenPairs(db, children, parents[..n]) +
      PairsOfParent(parents[n], Neighbours(db, Children, children, parents[n]))
  }

  /** The pairs found by loading the parent of every child. */
  ghost function ParentPairs(db: Database, parents: Query, children: seq<Row>): Pairs
    requires ValidDatabase(db)
  {
    if children == [] then multiset{}
    else
      var n := |children| - 1;
      ParentPairs(db, parents, children[..n]) + PairsOfChild(Neighbours(db, Parent, parents, children[n]), children[n])
  }

  /** Whether `child` refers to `parent`. */
  predicate IsChildOf(parent: Row, child: Row) {
    Holds(child, ParentAccountId, IntAt(parent, Id))
  }

  /** The matching pairs, parent by parent. */
  ghost function RowSums(parents: seq<Row>, children: seq<Row>): Pairs {
    if parents == [] then multiset{}
    else
      var n := |parents| - 1;
      RowSums(parents[..n], children) +
      PairsOfParent(parents[n], PickRows(children, ByKey(ParentAccountId, IntAt(parents[n], Id))))
  }

  /** The pair of a parent and a child, if they belong together. */
  ghost function PairIf(parent: Row, child: Row): Pairs {
    if IsChildOf(parent, child) then multiset{(IntAt(parent, Id), IntAt(child, Id))} else multiset{}
  }

  /** The pairs of one child with its parents among these. */
  ghost function ColumnSum(parents: seq<Row>, child: Row): Pairs {
    if IsInt(child, ParentAccountId)
    then PairsOfChild(PickRows(parents, ByKey(Id, IntAt(child, ParentAccountId))), child) else multiset{}
  }

  lemma OneMoreChild(p: Row, children: seq<Row>, child: Row)
    ensures var s := ByKey(ParentAccountId, IntAt(p, Id));
            PairsOfParent(p, PickRows(children + [child], s)) ==
            PairsOfParent(p, PickRows(children, s)) + PairIf(p, child)
  {
    var s := ByKey(ParentAccountId, IntAt(p, Id));
    PickRowsSnoc(children, child, s);
    PairsOfParentSnoc(p, PickRows(children, s), child);
    assert PickRows(children, s) + [] == PickRows(children, s);
  }

  lemma OneMoreParent(parents: seq<Row>, p: Row, child: Row)
    requires IsInt(p, Id)
    ensures ColumnSum(parents + [p], child) == ColumnSum(parents, child) + PairIf(p, child)
  {
    if IsInt(child, ParentAccountId) {
      var s := ByKey(Id, IntAt(child, ParentAccountId));
      PickRowsSnoc(parents, p, s);
      PairsOfChildSnoc(PickRows(parents, s), p, child);
      assert PickRows(parents, s) + [] == PickRows(parents, s);
    }
  }

  /** One more child adds its pairs to the sums over the parents. */
  lemma {:induction false} RowSumsSnoc(parents: seq<Row>, children: seq<Row>, child: Row)
    requires forall p | p in parents :: IsInt(p, Id)
    ensures RowSums(parents, children + [child]) == RowSums(parents, children) + ColumnSum(parents, child)
  {
    if parents == [] {
      assert PickRows(parents, ByKey(Id, IntAt(child, ParentAccountId))) == [];
    } else {
      var front, p := parents[..|parents| - 1], parents[|parents| - 1];
      assert parents == front + [p];
      RowSumsSnoc(front, children, child);
      OneMoreChild(p, children, child);
      OneMoreParent(front, p, child);
      var s := ByKey(ParentAccountId, IntAt(p, Id));
      assert RowSums(parents, children + [child]) ==
             RowSums(front, children + [child]) + PairsOfParent(p, PickRows(children + [child], s));
    }
  }

  lemma PairsOfParentSnoc(parent: Row, children: seq<Row>, child: Row)
    ensures PairsOfParent(parent, children + [child]) ==
            PairsOfParent(parent, children) + multiset{(IntAt(parent, Id), IntAt(child, Id))}
  {
    assert (children + [child])[..|children|] == children;
  }

  lemma PairsOfChildSnoc(parents: seq<Row>, parent: Row, child: Row)
    ensures PairsOfChild(parents + [parent], child) ==
            PairsOfChild(parents, child) + multiset{(IntAt(parent, Id), IntAt(child, Id))}
  {
    assert (parents + [parent])[..|parents|] == parents;
  }

  lemma ChildrenOf(db: Database, children: Query, parent: Row)
    requires ValidDatabase(db)
    ensures Neighbours(db, Children, children, parent) ==
            PickRows(Fetch(db, children, Everything), ByKey(ParentAccountId, IntAt(parent, Id)))
  {
    QueryById(db, children, ParentAccountId, IntAt(parent, Id));
  }

  lemma ParentsOf(db: Database, parents: Query, child: Row)
    requires ValidDatabase(db)
    ensures PairsOfChild(Neighbours(db, Parent, parents, child), child) ==
            ColumnSum(Fetch(db, parents, Everything), child)
  {
    if IsInt(child, ParentAccountId) {
      QueryById(db, parents, Id, IntAt(child, ParentAccountId));
    }
  }

  lemma {:induction false} ChildrenAreRowSums(db: Database, children: Query, parents: seq<Row>)
    requires ValidDatabase(db)
    ensures ChildrenPairs(db, children, parents) == RowSums(parents, Fetch(db, children, Everything))
  {
    if parents != [] {
      var n := |parents| - 1;
      ChildrenAreRowSums(db, children, parents[..n]);
      ChildrenOf(db, children, parents[n]);
    }
  }

  lemma {:induction false} ParentsAreRowSums(db: Database, parents: Query, children: seq<Row>)
    requires ValidDatabase(db) && HasId(parents.entity)
    ensures ParentPairs(db, parents, children) == RowSums(Fetch(db, parents, Everything), children)
  {
    var all := Fetch(db, parents, Everything);
    if children == [] {
      RowSumsEmpty(all);
    } else {
      var n := |children| - 1;
      assert children == children[..n] + [children[n]];
      ParentsAreRowSums(db, parents, children[..n]);
      ParentsOf(db, parents, children[n]);
      AllHaveIds(db, parents);
      RowSumsSnoc(all, children[..n], children[n]);
    }
  }

  lemma AllHaveIds(db: Database, q: Query)
    requires ValidDatabase(db) && HasId(q.entity)
    ensures forall r | r in Fetch(db, q, Everything) :: IsInt(r, Id)
  {
    FetchMembers(db, q, Everything);
    IdIsValid(q.entity);
  }

  lemma {:induction false} RowSumsEmpty(parents: seq<Row>)
    ensures RowSums(parents, []) == multiset{}
  {
    if parents != [] {
      RowSumsEmpty(parents[..|parents| - 1]);
      assert PickRows([], ByKey(ParentAccountId, IntAt(parents[|parents| - 1], Id))) == [];
    }
  }

  // ---- The order of the rows does not matter ----

  /** Two queries admit the same rows of their table; they may order them differently. */
  ghost predicate SameRows(db: Database, a: Query, b: Query)
    requires ValidDatabase(db)
  {
    a.entity == b.entity && forall r | r in db.tables[a.entity] :: a.where(r) <==> b.where(r)
  }

  lemma {:induction false} KeepSame(rows: seq<Row>, f: Row -> bool, g: Row -> bool)
    requires forall r | r in rows :: f(r) <==> g(r)
    ensures Keep(rows, f, Everything) == Keep(rows, g, Everything)
  {
    if rows != [] {
      assert rows[|rows| - 1] in rows && forall r | r in rows[..|rows| - 1] :: r in rows;
      KeepSame(rows[..|rows| - 1], f, g);
    }
  }

  lemma {:induction false} RowSumsInsert(parents: seq<Row>, children: seq<Row>, child: Row, rank: Row -> int)
    requires forall p | p in parents :: IsInt(p, Id)
    ensures RowSums(parents, Insert(children, child, rank)) == RowSums(parents, children) + ColumnSum(parents, child)
  {
    if children == [] || rank(children[|children| - 1]) <= rank(child) {
      RowSumsSnoc(parents, children, child);
    } else {
      var front, last := children[..|children| - 1], children[|children| - 1];
      assert children == front + [last];
      RowSumsInsert(parents, front, child, rank);
      InsertSnoc(front, last, child, rank);
      RowSumsSnoc(parents, Insert(front, child, rank), last);
      RowSumsSnoc(parents, front, last);
    }
  }

  lemma {:induction false} RowSumsOrdered(parents: seq<Row>, children: seq<Row>, rank: Row -> int)
    requires forall p | p in parents :: IsInt(p, Id)
    ensures RowSums(parents, OrderBy(children, rank)) == RowSums(parents, children)
  {
    if children != [] {
      var front, last := children[..|children| - 1], children[|children| - 1];
      assert children == front + [last];
      RowSumsOrdered(parents, front, rank);
      RowSumsInsert(parents, OrderBy(front, rank), last, rank);
      RowSumsSnoc(parents, front, last);
    }
  }

  lemma ParentSnoc(parents: seq<Row>, p: Row, children: seq<Row>)
    ensures RowSums(parents + [p], children) ==
            RowSums(parents, children) + PairsOfParent(p, PickRows(children, ByKey(ParentAccountId, IntAt(p, Id))))
  {
    assert (parents + [p])[..|parents|] == parents;
  }

  lemma {:induction false} ParentInserted(parents: seq<Row>, p: Row, children: seq<Row>, rank: Row -> int)
    ensures RowSums(Insert(parents, p, rank), children) == RowSums(parents + [p], children)
  {
    if parents != [] && rank(parents[|parents| - 1]) > rank(p) {
      var front, last := parents[..|parents| - 1], parents[|parents| - 1];
      assert parents == front + [last];
      ParentInserted(front, p, children, rank);
      InsertSnoc(front, last, p, rank);
      ParentSnoc(Insert(front, p, rank), last, children);
      ParentSnoc(front, p, children);
      ParentSnoc(front, last, children);
      ParentSnoc(parents, p, children);
    }
  }

  lemma {:induction false} ParentsOrdered(parents: seq<Row>, children: seq<Row>, rank: Row -> int)
    ensures RowSums(OrderBy(parents, rank), children) == RowSums(parents, children)
  {
    if parents != [] {
      var front, last := parents[..|parents| - 1], parents[|parents| - 1];
      assert parents == front + [last];
      ParentsOrdered(front, children, rank);
      ParentInserted(OrderBy(front, rank), last, children, rank);
      ParentSnoc(OrderBy(front, rank), last, children);
      ParentSnoc(front, last, children);
    }
  }

  /** The sums over two fetched lists are those over the rows that the queries admit. */
  lemma FetchedSums(db: Database, parents: Query, children: Query)
    requires ValidDatabase(db) && HasId(parents.entity)
    ensures RowSums(Fetch(db, parents, Everything), Fetch(db, children, Everything)) ==
            RowSums(Keep(db.tables[parents.entity], parents.where, Everything),
                    Keep(db.tables[children.entity], children.where, Everything))
  {
    AllHaveIds(db, parents);
    RowSumsOrdered(Fetch(db, parents, Everything), Keep(db.tables[children.entity], children.where, Everything),
                   children.rank);
    ParentsOrdered(Keep(db.tables[parents.entity], parents.where, Everything),
                   Keep(db.tables[children.entity], children.where, Everything), parents.rank);
  }

  /** The two ways through a self-referencing edge agree: loading the children (`downs`) of the accounts that
      `parents` returns finds the same (parent, child) pairs as loading the parents (`ups`) of the accounts that
      `children` returns, if both ways admit the same parents and the same children, in whatever order. */
  lemma InverseEdgesAgree(db: Database, parents: Query, children: Query, ups: Query, downs: Query)
    requires ValidDatabase(db) && parents.entity == Account && children.entity == Account
    requires SameRows(db, parents, ups) && SameRows(db, children, downs)
    ensures ChildrenPairs(db, downs, Fetch(db, parents, Everything)) ==
            ParentPairs(db, ups, Fetch(db, children, Everything))
  {
    ChildrenAreRowSums(db, downs, Fetch(db, parents, Everything));
    ParentsAreRowSums(db, ups, Fetch(db, children, Everything));
    FetchedSums(db, parents, downs);
    FetchedSums(db, ups, children);
    KeepSame(db.tables[Account], parents.where, ups.where);
    KeepSame(db.tables[Account], children.where, downs.where);
  }

  // ---- The edges of loaded objects ----

  /** The (parent, child) ids of an object and these children. */
  ghost function PairsDown(n: Node, children: seq<Node>): Pairs
    reads n, children
  {
    if children == [] then multiset{}
    else
      var k := |children| - 1;
      PairsDown(n, children[..k]) + multiset{(IntAt(n.fields, Id), IntAt(children[k].fields, Id))}
  }

  /** The (parent, child) ids of an object and these parents. */
  ghost function PairsUp(parents: seq<Node>, n: Node): Pairs
    reads n, parents
  {
    if parents == [] then multiset{}
    else
      var k := |parents| - 1;
      PairsUp(parents[..k], n) + multiset{(IntAt(parents[k].fields, Id), IntAt(n.fields, Id))}
  }

  /** The pairs that the `Children` edges of these objects hold. */
  ghost function ChildEdges(nodes: seq<Node>, heap: set<Node>): Pairs
    requires Closed(heap) && forall i | 0 <= i < |nodes| :: nodes[i] in heap
    reads heap
  {
    if nodes == [] then multiset{}
    else
      var k := |nodes| - 1;
      assert nodes[k] in heap && Settled(nodes[k], heap);
      ChildEdges(nodes[..k], heap) + PairsDown(nodes[k], Behind(nodes[k], Children))
  }

  /** The pairs that the `Parent` edges of these objects hold. */
  ghost function ParentEdges(nodes: seq<Node>, heap: set<Node>): Pairs
    requires Closed(heap) && forall i | 0 <= i < |nodes| :: nodes[i] in heap
    reads heap
  {
    if nodes == [] then multiset{}
    else
      var k := |nodes| - 1;
      assert nodes[k] in heap && Settled(nodes[k], heap);
      ParentEdges(nodes[..k], heap) + PairsUp(Behind(nodes[k], Parent), nodes[k])
  }

  /** Objects that have the ids of these rows. */
  ghost predicate HaveIds(nodes: seq<Node>, rows: seq<Row>)
    reads nodes
  {
    |nodes| == |rows| && forall i | 0 <= i < |nodes| :: IntAt(nodes[i].fields, Id) == IntAt(rows[i], Id)
  }

  lemma {:induction false} SamePairs(n: Node, row: Row, others: seq<Node>, rows: seq<Row>)
    requires IntAt(n.fields, Id) == IntAt(row, Id) && HaveIds(others, rows)
    ensures PairsDown(n, others) == PairsOfParent(row, rows) && PairsUp(others, n) == PairsOfChild(rows, row)
  {
    if others != [] {
      SamePairs(n, row, others[..|others| - 1], rows[..|others| - 1]);
    }
  }

  /** Loaded objects have the ids of their rows. */
  lemma LoadedIds(db: Database, q: Query, fields: seq<Column>, rows: seq<Row>, nodes: seq<Node>, heap: set<Node>)
    requires ValidDatabase(db) && HasId(q.entity) && (forall r | r in rows :: ValidRow(q.entity, r))
    requires Closed(heap) && (forall n | n in nodes :: n in heap) && AreNaiveTrees(db, q, fields, rows, TreesOf(nodes))
    ensures HaveIds(nodes, rows)
  {
    forall i | 0 <= i < |nodes|
      ensures IntAt(nodes[i].fields, Id) == IntAt(rows[i], Id)
    {
      assert Settled(nodes[i], heap) && TreesOf(nodes)[i] == nodes[i].tree && rows[i] in rows;
      LoadedId(db, q, fields, nodes[i], rows[i], heap);
    }
  }

  /** What an object holds behind an edge that is not many-to-many has the ids of the neighbours of its row. */
  lemma BehindIsNeighbours(db: Database, q: Query, fields: seq<Column>, n: Node, row: Row, heap: set<Node>, e: Edge)
    requires ValidDatabase(db) && WellTyped(q) && e in q.with && !Rel(e).ManyToMany? && HasId(q.with[e].entity)
    requires Closed(heap) && n in heap && IsNaiveTree(db, q, fields, row, n.tree)
    ensures HaveIds(Behind(n, e), Neighbours(db, e, q.with[e], row))
  {
    var sub := q.with[e];
    assert Settled(n, heap);
    assert e in n.tree.edges <==> e in n.edges;
    if e in n.edges {
      assert n.tree.edges[e] == TreesOf(n.edges[e]) && IsNaiveEdge(db, e, sub, row, n.tree.edges[e]);
      NeighboursInTable(db, e, sub, row);
      LoadedIds(db, sub, SubFields(e, sub), Neighbours(db, e, sub, row), n.edges[e], heap);
    }
  }

  lemma LoadedId(db: Database, q: Query, fields: seq<Column>, n: Node, row: Row, heap: set<Node>)
    requires ValidDatabase(db) && HasId(q.entity) && ValidRow(q.entity, row)
    requires Settled(n, heap) && IsNaiveTree(db, q, fields, row, n.tree)
    ensures IntAt(n.fields, Id) == IntAt(row, Id)
  {
    OwnIdIsKept(q.entity, fields, q.with.Keys, row);
  }

  /** The edges of one object hold the pairs of its row. */
  lemma NodeDown(db: Database, q: Query, fields: seq<Column>, n: Node, row: Row, heap: set<Node>)
    requires ValidDatabase(db) && WellTyped(q) && q.entity == Account && ValidRow(Account, row) && Children in q.with
    requires Closed(heap) && n in heap && IsNaiveTree(db, q, fields, row, n.tree)
    ensures PairsDown(n, Behind(n, Children)) == PairsOfParent(row, Neighbours(db, Children, q.with[Children], row))
  {
    LoadedId(db, q, fields, n, row, heap);
    BehindIsNeighbours(db, q, fields, n, row, heap, Children);
    SamePairs(n, row, Behind(n, Children), Neighbours(db, Children, q.with[Children], row));
  }

  lemma NodeUp(db: Database, q: Query, fields: seq<Column>, n: Node, row: Row, heap: set<Node>)
    requires ValidDatabase(db) && WellTyped(q) && q.entity == Account && ValidRow(Account, row) && Parent in q.with
    requires Closed(heap) && n in heap && IsNaiveTree(db, q, fields, row, n.tree)
    ensures PairsUp(Behind(n, Parent), n) == PairsOfChild(Neighbours(db, Parent, q.with[Parent], row), row)
  {
    LoadedId(db, q, fields, n, row, heap);
    BehindIsNeighbours(db, q, fields, n, row, heap, Parent);
    SamePairs(n, row, Behind(n, Parent), Neighbours(db, Parent, q.with[Parent], row));
  }

  /** All objects are those of valid account rows, in a closed heap. */
  ghost predicate LoadedAccounts(db: Database, q: Query, fields: seq<Column>, rows: seq<Row>, nodes: seq<Node>,
                                 heap: set<Node>)
    requires ValidDatabase(db)
    reads heap, nodes
  {
    && |nodes| == |rows| && Closed(heap)
    && forall i | 0 <= i < |nodes| ::
         nodes[i] in heap && ValidRow(Account, rows[i]) && IsNaiveTree(db, q, fields, rows[i], nodes[i].tree)
  }

  lemma {:induction false} LoadedDown(db: Database, q: Query, fields: seq<Column>, rows: seq<Row>, nodes: seq<Node>,
                                      heap: set<Node>)
    requires ValidDatabase(db) && WellTyped(q) && q.entity == Account && Children in q.with
    requires LoadedAccounts(db, q, fields, rows, nodes, heap)
    ensures ChildEdges(nodes, heap) == ChildrenPairs(db, q.with[Children], rows)
  {
    if nodes != [] {
      var k := |nodes| - 1;
      LoadedDown(db, q, fields, rows[..k], nodes[..k], heap);
      NodeDown(db, q, fields, nodes[k], rows[k], heap);
    }
  }

  lemma {:induction false} LoadedUp(db: Database, q: Query, fields: seq<Column>, rows: seq<Row>, nodes: seq<Node>,
                                    heap: set<Node>)
    requires ValidDatabase(db) && WellTyped(q) && q.entity == Account && Parent in q.with
    requires LoadedAccounts(db, q, fields, rows, nodes, heap)
    ensures ParentEdges(nodes, heap) == ParentPairs(db, q.with[Parent], rows)
  {
    if nodes != [] {
      var k := |nodes| - 1;
      LoadedUp(db, q, fields, rows[..k], nodes[..k], heap);
      NodeUp(db, q, fields, nodes[k], rows[k], heap);
    }
  }

  lemma DeliveredAccounts(db: Database, q: Query, fields: seq<Column>, nodes: seq<Node>, heap: set<Node>)
    requires ValidDatabase(db) && q.entity == Account
    requires Delivers(Success(nodes), db, q, fields, Fetch(db, q, Everything), heap)
    ensures LoadedAccounts(db, q, fields, Fetch(db, q, Everything), nodes, heap)
  {
    FetchMembers(db, q, Everything);
    assert forall i | 0 <= i < |nodes| :: TreesOf(nodes)[i] == nodes[i].tree;
  }

  /** The same for what `All` delivers: the `Children` edges of the accounts that one query loads and the `Parent` edges
      of those that the other one loads hold the same (parent, child) pairs, equally often, if the query of each edge
      admits the same accounts as the other query. */
  lemma LoadedEdgesAgree(db: Database, parents: Query, pf: seq<Column>, up: seq<Node>, upHeap: set<Node>,
                         children: Query, cf: seq<Column>, down: seq<Node>, downHeap: set<Node>)
    requires ValidDatabase(db) && WellTyped(parents) && WellTyped(children)
    requires parents.entity == children.entity == Account && Children in parents.with && Parent in children.with
    requires SameRows(db, parents, children.with[Parent]) && SameRows(db, children, parents.with[Children])
    requires Delivers(Success(up), db, parents, pf, Fetch(db, parents, Everything), upHeap)
    requires Delivers(Success(down), db, children, cf, Fetch(db, children, Everything), downHeap)
    ensures ChildEdges(up, upHeap) == ParentEdges(down, downHeap)
  {
    DeliveredAccounts(db, parents, pf, up, upHeap);
    DeliveredAccounts(db, children, cf, down, downHeap);
    LoadedDown(db, parents, pf, Fetch(db, parents, Everything), up, upHeap);
    LoadedUp(db, children, cf, Fetch(db, children, Everything), down, downHeap);
    InverseEdgesAgree(db, parents, children, children.with[Parent], parents.with[Children]);
  }
}
