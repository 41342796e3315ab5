/** The entity objects a query returns, and how they are created from rows. */
module Nodes {
  import opened Wrappers
  import opened Schema
  import opened RowCodec
  import opened Relations
  import opened NaiveLoad

  datatype LoadError =
    | InvalidField(column: Column)          // prepareQuery rejects a selected field
    | TypeMismatch                          // assignValues got a cell of another type
    | NilForeignKey                         // a child came back without its key
    | UnexpectedNode(id: int)               // a neighbour belongs to no loaded node

  datatype Result<+T> = Success(value: T) | Failure(error: LoadError)

  /** A generated entity: scalar fields (absent means Go's zero value), and the edges filled by eager
      loading. The ghost `tree` is the value of the finished object with everything below it. */
  class Node {
    const entity: Entity
    var fields: Row
    var loaded: set<Edge>
    var edges: map<Edge, seq<Node>>
    ghost var tree: Tree

    constructor (entity: Entity)
      ensures this.entity == entity && fields == map[] && loaded == {} && edges == map[]
    {
      this.entity := entity;
      fields, loaded, edges := map[], {}, map[];
      tree := Tree(entity, map[], {}, map[]);
    }

    /** `assignValues`: one cell per column, with a type assertion each. */
    method AssignValues(columns: seq<Column>, values: seq<Cell>) returns (err: Option<LoadError>)
      modifies this`fields
      ensures err.None? <==>
              |columns| <= |values| && forall i | 0 <= i < |columns| :: CellFits(columns[i], values[i])
      ensures err.None? ==> fields == AssignCells(old(fields), columns, values)
    {
      if |values| < |columns| {
        return Some(TypeMismatch);
      }
      assert columns[..0] == [];
      for i := 0 to |columns|
        invariant forall j | 0 <= j < i :: CellFits(columns[j], values[j])
        invariant fields == AssignCells(old(fields), columns[..i], values)
      {
        if !CellFits(columns[i], values[i]) {
          return Some(TypeMismatch);
        }
        fields := AssignCell(fields, columns[i], values[i]);
        assert columns[..i + 1][..i] == columns[..i];
      }
      assert columns[..|columns|] == columns;
      err := None;
    }
  }

  ghost function TreesOf(nodes: seq<Node>): (trees: seq<Tree>)
    reads nodes
  {
    seq(|nodes|, i requires 0 <= i < |nodes| reads nodes => nodes[i].tree)
  }

  /** `n` is finished: its neighbours lie in `heap`, and its tree is made of their trees. */
  ghost predicate Settled(n: Node, heap: set<Node>)
    reads n, heap
  {
    && (forall e, c | e in n.edges && c in n.edges[e] :: c in heap)
    && n.tree == Tree(n.entity, n.fields, n.loaded, map e | e in n.edges :: TreesOf(n.edges[e]))
  }

  /** A set of finished objects, closed under following edges. */
  ghost predicate Closed(heap: set<Node>)
    reads heap
  {
    forall n | n in heap :: Settled(n, heap)
  }

  lemma ClosedUnion(a: set<Node>, b: set<Node>)
    requires Closed(a) && Closed(b)
    ensures Closed(a + b)
  {
    forall n | n in a + b
      ensures Settled(n, a + b)
    {
      if n in a {
        assert Settled(n, a);
      } else {
        assert Settled(n, b);
      }
    }
  }

  ghost predicate Apart(nodes: seq<Node>) {
    forall i, j | 0 <= i < j < |nodes| :: nodes[i] != nodes[j]
  }

  /** `node` was just created for `row` by query `q` with these selected fields. */
  ghost predicate Scanned(node: Node, q: Query, fields: seq<Column>, row: Row)
    reads node
  {
    && node.entity == q.entity
    && node.fields == Decode(q.entity, fields, q.with.Keys, row)
    && node.loaded == q.with.Keys
    && node.edges == map[]
  }

  ghost predicate AllScanned(nodes: seq<Node>, q: Query, fields: seq<Column>, rows: seq<Row>)
    reads nodes
  {
    |nodes| == |rows| && forall i | 0 <= i < |nodes| :: Scanned(nodes[i], q, fields, rows[i])
  }

  function AddColumnOnce(columns: seq<Column>, c: Column): seq<Column> {
    if c in columns then columns else columns + [c]
  }

  /** The columns that a query selects on its own: the id, and the foreign keys of the requested edges. */
  predicate IsAddedKey(q: Query, c: Column) {
    || (c == Id && q.entity != AccountGroup)
    || (c == ProxyId && ProxyEdge in q.with) || (c == ParentAccountId && Parent in q.with)
    || (c == AccountId && (LinkAccount in q.with || UsageLogAccount in q.with))
    || (c == GroupId && LinkGroup in q.with)
  }

  ghost predicate AreRequested(columns: seq<Column>, q: Query, fields: seq<Column>) {
    forall c :: c in columns <==> Requested(q.entity, fields, q.with.Keys, c)
  }

  /** The selected columns and the added ones, and no others. */
  ghost predicate AreSelected(columns: seq<Column>, q: Query, fields: seq<Column>) {
    forall c :: c in columns <==> c in fields || IsAddedKey(q, c)
  }

  lemma AddedKeys(q: Query, fields: seq<Column>)
    ensures fields != [] ==>
              forall c :: Requested(q.entity, fields, q.with.Keys, c) <==> c in fields || IsAddedKey(q, c)
  {
    forall c | fields != []
      ensures Requested(q.entity, fields, q.with.Keys, c) <==> c in fields || IsAddedKey(q, c)
    {
      RequestedMeaning(q.entity, fields, q.with.Keys, c);
    }
  }

  /** `querySpec`: the columns of the SELECT. The id comes first and only once, and the columns are
      exactly the requested ones. */
  method QuerySpec(q: Query, fields: seq<Column>) returns (columns: seq<Column>)
    requires WellTyped(q)
    ensures AreRequested(columns, q, fields)
    ensures fields == [] ==> columns == Columns(q.entity)
    ensures fields != [] ==> AreSelected(columns, q, fields)
    ensures HasId(q.entity) ==> |columns| > 0 && columns[0] == Id && Id !in columns[1..]
  {
    AddedKeys(q, fields);
    if |fields| == 0 {
      columns := Columns(q.entity);
      forall c
        ensures c in columns <==> ValidColumn(q.entity, c)
      {
        ColumnsAreValid(q.entity, c);
      }
      if HasId(q.entity) {
        IdComesFirst(q.entity);
      }
      return;
    }
    columns := if HasId(q.entity) then [Id] else [];
    ghost var start := columns;
    for i := 0 to |fields|
      invariant |columns| >= |start| && (start != [] ==> columns[0] == Id && Id !in columns[1..])
      invariant forall c :: c in columns <==> c in start || c in fields[..i]
    {
      if !HasId(q.entity) || fields[i] != Id {
        columns := columns + [fields[i]];
      }
    }
    assert fields[..|fields|] == fields;
    var order := EdgeOrder(q.entity);
    for i := 0 to |order|
      invariant |columns| >= |start| && (start != [] ==> columns[0] == Id && Id !in columns[1..])
      invariant forall c :: c in columns <==>
                  (c in start || c in fields ||
                   exists e | e in order[..i] && e in q.with :: Rel(e).ManyToOne? && Key(e) == c)
    {
      if order[i] in q.with && Rel(order[i]).ManyToOne? {
        columns := AddColumnOnce(columns, Key(order[i]));
      }
      assert order[..i + 1] == order[..i] + [order[i]];
    }
    forall e | e in q.with
      ensures e in order[..|order|]
    {
      EdgeOrderIsComplete(e);
    }
  }

  lemma EdgeOrderIsComplete(e: Edge)
    ensures e in EdgeOrder(Owner(e))
  {
    match Owner(e)
    case Account => assert EdgeOrder(Account) == [Groups, ProxyEdge, Parent, Children, UsageLogs, AccountGroups];
    case _ =>
  }

  /** The `Assign` callback of `sqlAll`: creates the object for one row of the result. */
  method NewNode(q: Query, ghost fields: seq<Column>, columns: seq<Column>, values: seq<Cell>, ghost row: Row)
    returns (node: Node, err: Option<LoadError>)
    requires WellTyped(q) && ValidRow(q.entity, row) && ValidFields(q.entity, fields)
    requires AreRequested(columns, q, fields)
    requires values == ScanRow(columns, row)
    ensures err.None? && fresh(node) && Scanned(node, q, fields, row)
  {
    node := new Node(q.entity);
    node.loaded := q.with.Keys;
    err := node.AssignValues(columns, values);
    NodeDecodes(q, fields, columns, row);
  }

  lemma RequestedIsValid(q: Query, fields: seq<Column>, c: Column)
    requires WellTyped(q) && ValidFields(q.entity, fields) && Requested(q.entity, fields, q.with.Keys, c)
    ensures ValidColumn(q.entity, c) && !c.Other?
  {
    if !(fields == [] || c in fields || (HasId(q.entity) && c.Id?)) {
      var e :| e in q.with.Keys && Rel(e).ManyToOne? && Key(e) == c;
      KeysAreValid(e);
    } else if c.Id? && HasId(q.entity) {
      IdIsValid(q.entity);
    }
    ValidIsNamed(q.entity, c);
  }

  lemma NodeDecodes(q: Query, fields: seq<Column>, columns: seq<Column>, row: Row)
    requires WellTyped(q) && ValidRow(q.entity, row) && ValidFields(q.entity, fields)
    requires AreRequested(columns, q, fields)
    ensures AssignCells(map[], columns, ScanRow(columns, row)) == Decode(q.entity, fields, q.with.Keys, row)
  {
    var typed := map c | c in row && ValidColumn(q.entity, c) :: row[c];
    forall c | c in columns
      ensures c in typed && !c.Other?
    {
      RequestedIsValid(q, fields, c);
    }
    assert ScanRow(columns, typed) == ScanRow(columns, row);
    DecodesRow(columns, typed);
    var decoded := AssignCells(map[], columns, ScanRow(columns, typed));
    var want := Decode(q.entity, fields, q.with.Keys, row);
    forall c
      ensures c in decoded <==> c in want
    {
      if c in want {
        assert c in columns;
      }
    }
    assert decoded == want;
  }
}
