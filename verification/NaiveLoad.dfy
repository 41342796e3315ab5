/** The reference for eager loading: one neighbour query per node and edge, recursively. */
module NaiveLoad {
  import opened Wrappers
  import opened Schema
  import opened Relations

  /** A loaded entity with everything below it. An edge that is missing from `edges` is a nil
      pointer or slice; `loaded` are the edges the query asked for. */
  datatype Tree = Tree(entity: Entity, fields: Row, loaded: set<Edge>, edges: map<Edge, seq<Tree>>)

  /** The columns a query must return: the selected ones, the entity's id, and the foreign keys of
      the requested many-to-one edges. */
  ghost predicate Requested(entity: Entity, fields: seq<Column>, edges: set<Edge>, c: Column) {
    if fields == [] then ValidColumn(entity, c)
    else
      || c in fields
      || (HasId(entity) && c.Id?)
      || (exists e | e in edges :: Rel(e).ManyToOne? && Key(e) == c)
  }

  /** Which columns these are, entity by entity and edge by edge. */
  lemma RequestedMeaning(entity: Entity, fields: seq<Column>, edges: set<Edge>, c: Column)
    ensures Requested(entity, fields, edges, c) <==>
            if fields == [] then c in Columns(entity)
            else
              || c in fields || (c == Id && entity != AccountGroup)
              || (c == ProxyId && ProxyEdge in edges) || (c == ParentAccountId && Parent in edges)
              || (c == AccountId && (LinkAccount in edges || UsageLogAccount in edges))
              || (c == GroupId && LinkGroup in edges)
  {
    ColumnsAreValid(entity, c);
    assert Key(ProxyEdge) == ProxyId && Key(Parent) == ParentAccountId && Key(LinkGroup) == GroupId;
    assert Key(LinkAccount) == AccountId && Key(UsageLogAccount) == AccountId;
  }

  /** The fields a node has after the requested columns of its row were assigned to it. */
  ghost function Decode(entity: Entity, fields: seq<Column>, edges: set<Edge>, row: Row): Row {
    map c | c in row && Requested(entity, fields, edges, c) && !row[c].Null? :: row[c]
  }

  /** The selected fields of the sub-query behind an edge, once the loader has added its key column. */
  function SubFields(e: Edge, sub: Query): seq<Column> {
    if Rel(e).OneToMany? && sub.fields != [] && Key(e) !in sub.fields then sub.fields + [Key(e)]
    else sub.fields
  }

  predicate ValidFields(entity: Entity, fields: seq<Column>) {
    forall c | c in fields :: ValidColumn(entity, c)
  }

  /** The rows behind edge `e` of the single row `row`. */
  ghost function Neighbours(db: Database, e: Edge, sub: Query, row: Row): seq<Row>
    requires ValidDatabase(db)
  {
    match Rel(e)
    case ManyToOne => if IsInt(row, Key(e)) then Fetch(db, sub, In(Id, [IntAt(row, Key(e))])) else []
    case OneToMany => Fetch(db, sub, In(Key(e), [IntAt(row, Id)]))
    case ManyToMany =>
      PickRows(Fetch(db, sub, Everything), ByLink(db.tables[AccountGroup], e, IntAt(row, Id)))
  }

  /** The tree of the object for `row`, with the requested edges loaded for this row alone. */
  ghost function NaiveNode(db: Database, q: Query, fields: seq<Column>, row: Row): Tree
    requires ValidDatabase(db)
    decreases q, 1
  {
    Tree(q.entity, Decode(q.entity, fields, q.with.Keys, row), q.with.Keys, NaiveEdgeMap(db, q, row))
  }

  ghost function NaiveEdgeMap(db: Database, q: Query, row: Row): map<Edge, seq<Tree>>
    requires ValidDatabase(db)
    decreases q, 0
  {
    map e | e in q.with && NaiveEdge(db, e, q.with[e], row).Some? :: NaiveEdge(db, e, q.with[e], row).value
  }

  ghost function NaiveList(db: Database, q: Query, fields: seq<Column>, rows: seq<Row>): seq<Tree>
    requires ValidDatabase(db)
    decreases q, 2
  {
    seq(|rows|, i requires 0 <= i < |rows| => NaiveNode(db, q, fields, rows[i]))
  }

  /** The value of edge `e`: nothing for a to-one edge without a neighbour, and otherwise the
      neighbours' trees. */
  ghost function NaiveEdge(db: Database, e: Edge, sub: Query, row: Row): Option<seq<Tree>>
    requires ValidDatabase(db)
    decreases sub, 3
  {
    var rows := Neighbours(db, e, sub, row);
    if Rel(e).ManyToOne? && rows == [] then None
    else Some(NaiveList(db, sub, SubFields(e, sub), rows))
  }

  /** A to-one edge without a foreign key runs no query. */
  predicate RunsQuery(e: Edge, row: Row) {
    Rel(e).ManyToOne? ==> IsInt(row, Key(e))
  }

  /** Loading edge `e` of `row` runs a query that selects an unknown field, there or further down. */
  ghost predicate EdgeFails(db: Database, e: Edge, sub: Query, row: Row)
    requires ValidDatabase(db)
    decreases sub, 3
  {
    RunsQuery(e, row) && QueryFails(db, sub, SubFields(e, sub), Neighbours(db, e, sub, row))
  }

  ghost predicate RowFails(db: Database, q: Query, row: Row)
    requires ValidDatabase(db)
    decreases q, 1
  {
    exists e | e in q.with :: EdgeFails(db, e, q.with[e], row)
  }

  ghost predicate QueryFails(db: Database, q: Query, fields: seq<Column>, rows: seq<Row>)
    requires ValidDatabase(db)
    decreases q, 2
  {
    !ValidFields(q.entity, fields) || exists r | r in rows :: RowFails(db, q, r)
  }

  /** Some node's own query for edge `e` fails. */
  ghost predicate SomeEdgeFails(db: Database, e: Edge, sub: Query, rows: seq<Row>)
    requires ValidDatabase(db)
  {
    exists i | 0 <= i < |rows| :: EdgeFails(db, e, sub, rows[i])
  }

  /** `batch` holds exactly the neighbours of all rows. */
  ghost predicate AllNeighbours(db: Database, e: Edge, sub: Query, rows: seq<Row>, batch: seq<Row>)
    requires ValidDatabase(db)
  {
    && (forall r | r in batch :: exists i | 0 <= i < |rows| :: r in Neighbours(db, e, sub, rows[i]))
    && (forall i, r | 0 <= i < |rows| && r in Neighbours(db, e, sub, rows[i]) :: r in batch)
  }

  /** If `batch` holds exactly the neighbours of all rows, then the batched query fails exactly when the
      query of some single row fails. */
  lemma BatchFails(db: Database, e: Edge, sub: Query, rows: seq<Row>, batch: seq<Row>)
    requires ValidDatabase(db)
    requires exists i | 0 <= i < |rows| :: RunsQuery(e, rows[i])
    requires AllNeighbours(db, e, sub, rows, batch)
    ensures QueryFails(db, sub, SubFields(e, sub), batch) <==> SomeEdgeFails(db, e, sub, rows)
  {
    if !ValidFields(sub.entity, SubFields(e, sub)) {
      var i :| 0 <= i < |rows| && RunsQuery(e, rows[i]);
      assert EdgeFails(db, e, sub, rows[i]);
    } else if QueryFails(db, sub, SubFields(e, sub), batch) {
      var r :| r in batch && RowFails(db, sub, r);
      var i :| 0 <= i < |rows| && r in Neighbours(db, e, sub, rows[i]);
      assert QueryFails(db, sub, SubFields(e, sub), Neighbours(db, e, sub, rows[i]));
      assert EdgeFails(db, e, sub, rows[i]);
    } else {
      forall i | 0 <= i < |rows|
        ensures !EdgeFails(db, e, sub, rows[i])
      {
        assert forall r | r in Neighbours(db, e, sub, rows[i]) :: !RowFails(db, sub, r);
        assert !QueryFails(db, sub, SubFields(e, sub), Neighbours(db, e, sub, rows[i]));
      }
    }
  }

  // ---- Facts about single rows ----

  /** The entity's own key columns, as the loaders read them. */
  lemma OwnIdIsKept(entity: Entity, fields: seq<Column>, edges: set<Edge>, row: Row)
    requires ValidRow(entity, row) && HasId(entity)
    ensures IsInt(Decode(entity, fields, edges, row), Id) && IsInt(row, Id)
    ensures IntAt(Decode(entity, fields, edges, row), Id) == IntAt(row, Id)
  {
    assert ValidColumn(entity, Id);
  }

  /** A requested to-one edge finds its foreign key on the node although the key was not selected. */
  lemma ForeignKeyIsKept(entity: Entity, fields: seq<Column>, edges: set<Edge>, row: Row, e: Edge)
    requires ValidRow(entity, row) && e in edges && Rel(e).ManyToOne? && Owner(e) == entity
    ensures IsInt(Decode(entity, fields, edges, row), Key(e)) == IsInt(row, Key(e))
    ensures IntAt(Decode(entity, fields, edges, row), Key(e)) == IntAt(row, Key(e))
  {
    assert ValidColumn(entity, Key(e));
    assert Requested(entity, fields, edges, Key(e));
  }

  /** A child loaded over a to-many edge carries the key of its parent, whatever was selected. */
  lemma ChildKeyIsKept(e: Edge, sub: Query, row: Row)
    requires Rel(e).OneToMany? && sub.entity == Target(e) && ValidRow(sub.entity, row)
    ensures var d := Decode(sub.entity, SubFields(e, sub), sub.with.Keys, row);
            IsInt(d, Key(e)) == IsInt(row, Key(e)) && IntAt(d, Key(e)) == IntAt(row, Key(e))
  {
    assert ValidColumn(sub.entity, Key(e));
    assert Requested(sub.entity, SubFields(e, sub), sub.with.Keys, Key(e));
  }

  /** The key column a loader adds never turns a valid selection into an invalid one. */
  lemma SubFieldsValid(e: Edge, sub: Query)
    requires sub.entity == Target(e)
    ensures ValidFields(sub.entity, SubFields(e, sub)) <==> ValidFields(sub.entity, sub.fields)
  {
    if SubFields(e, sub) != sub.fields {
      assert forall c :: c in SubFields(e, sub) <==> c in sub.fields || c == Key(e);
    }
  }

  // ---- The rows of a joined result ----

  /** The distinct rows of a joined result, in the order of their first appearance. */
  function FirstRows(joined: seq<Joined>): seq<Row> {
    if joined == [] then []
    else
      var n := |joined| - 1;
      var front := FirstRows(joined[..n]);
      if HasRowWithId(front, IntAt(joined[n].row, Id)) then front
      else front + [joined[n].row]
  }

  lemma {:induction false} LinkRowsMembers(links: seq<Row>, e: Edge, target: Row, ids: seq<int>)
    ensures forall j :: j in LinkRows(links, e, target, ids) <==>
              j.row == target && j.out in ids &&
              exists l | l in links :: Holds(l, Key(e), j.out) && Holds(l, FarKey(e), IntAt(target, Id))
  {
    if links != [] {
      var n := |links| - 1;
      LinkRowsMembers(links[..n], e, target, ids);
      assert links == links[..n] + [links[n]];
    }
  }

  lemma {:induction false} JoinMembers(targets: seq<Row>, links: seq<Row>, e: Edge, ids: seq<int>)
    ensures forall j :: j in Join(targets, links, e, ids) <==>
              j.row in targets && j.out in ids && Linked(links, e, j.out, IntAt(j.row, Id))
  {
    if targets != [] {
      var n := |targets| - 1;
      JoinMembers(targets[..n], links, e, ids);
      LinkRowsMembers(links, e, targets[n], ids);
      assert targets == targets[..n] + [targets[n]];
    }
  }

  predicate HasRowWithId(rows: seq<Row>, id: int) {
    exists r | r in rows :: IntAt(r, Id) == id
  }

  lemma FirstRowsSnoc(joined: seq<Joined>, j: Joined)
    ensures FirstRows(joined + [j]) ==
            if HasRowWithId(FirstRows(joined), IntAt(j.row, Id)) then FirstRows(joined) else FirstRows(joined) + [j.row]
    ensures forall id :: HasRowWithId(FirstRows(joined + [j]), id) <==>
                         HasRowWithId(FirstRows(joined), id) || id == IntAt(j.row, Id)
  {
    assert (joined + [j])[..|joined|] == joined;
    var front := FirstRows(joined);
    if !HasRowWithId(front, IntAt(j.row, Id)) {
      assert forall r :: r in front + [j.row] <==> r in front || r == j.row;
    }
  }

  lemma {:induction false} FirstRowsDistinct(joined: seq<Joined>)
    ensures DistinctIds(FirstRows(joined))
  {
    if joined != [] {
      var n := |joined| - 1;
      FirstRowsDistinct(joined[..n]);
      var front := FirstRows(joined[..n]);
      if !HasRowWithId(front, IntAt(joined[n].row, Id)) {
        assert forall r | r in front :: IntAt(r, Id) != IntAt(joined[n].row, Id);
        AppendDistinct(front, joined[n].row);
      }
    }
  }

  ghost predicate HasJoined(joined: seq<Joined>, r: Row) {
    exists out :: Joined(out, r) in joined
  }

  lemma {:induction false} FirstRowsFromJoined(joined: seq<Joined>)
    ensures forall r | r in FirstRows(joined) :: HasJoined(joined, r)
  {
    if joined != [] {
      var n := |joined| - 1;
      FirstRowsFromJoined(joined[..n]);
      assert joined == joined[..n] + [joined[n]];
      assert Joined(joined[n].out, joined[n].row) in joined;
      forall r | r in FirstRows(joined)
        ensures HasJoined(joined, r)
      {
        if r in FirstRows(joined[..n]) {
          var out :| Joined(out, r) in joined[..n];
          assert Joined(out, r) in joined;
        }
      }
    }
  }

  lemma {:induction false} FirstRowsCover(joined: seq<Joined>)
    ensures forall j | j in joined :: HasRowWithId(FirstRows(joined), IntAt(j.row, Id))
  {
    if joined != [] {
      var n := |joined| - 1;
      FirstRowsCover(joined[..n]);
      var front, id := FirstRows(joined[..n]), IntAt(joined[n].row, Id);
      assert HasRowWithId(FirstRows(joined), id) by {
        if !HasRowWithId(front, id) {
          assert joined[n].row in FirstRows(joined);
        }
      }
      forall j | j in joined
        ensures HasRowWithId(FirstRows(joined), IntAt(j.row, Id))
      {
        if j in joined[..n] {
          var r :| r in front && IntAt(r, Id) == IntAt(j.row, Id);
          assert r in FirstRows(joined);
        } else {
          assert j == joined[n];
        }
      }
    }
  }

  lemma {:induction false} FirstRowsOfGroup(a: seq<Joined>, b: seq<Joined>, target: Row)
    requires forall j | j in b :: j.row == target
    requires !HasRowWithId(FirstRows(a), IntAt(target, Id))
    ensures FirstRows(a + b) == FirstRows(a) + if b == [] then [] else [target]
  {
    if b == [] {
      assert a + b == a;
    } else {
      var n := |b| - 1;
      FirstRowsOfGroup(a, b[..n], target);
      assert (a + b)[..|a| + n] == a + b[..n];
      assert (a + b)[|a| + n] == b[n] && b[n].row == target;
      if n > 0 {
        assert target in FirstRows(a + b[..n]);
      }
    }
  }

  /** The rows linked to one owner, among the first rows of the join for all owners, are that owner's rows. */
  lemma {:induction false} PickFirstRows(targets: seq<Row>, links: seq<Row>, e: Edge, ids: seq<int>, owner: int)
    requires DistinctIds(targets) && owner in ids
    ensures PickRows(FirstRows(Join(targets, links, e, ids)), ByLink(links, e, owner)) ==
            PickRows(targets, ByLink(links, e, owner))
  {
    if targets != [] {
      var n, s := |targets| - 1, ByLink(links, e, owner);
      var front, t := targets[..n], targets[n];
      PickFirstRows(front, links, e, ids, owner);
      FirstRowsOfJoin(front, t, links, e, ids, owner);
      assert front + [t] == targets;
      var first := FirstRows(Join(front, links, e, ids));
      PickRowsSnoc(first, t, s);
      PickRowsSnoc(front, t, s);
      assert PickRows(front, s) + [] == PickRows(front, s);
    }
  }

  /** One more target adds itself to the first rows, at least if it is linked to `owner`. */
  lemma FirstRowsOfJoin(front: seq<Row>, t: Row, links: seq<Row>, e: Edge, ids: seq<int>, owner: int)
    requires (forall r | r in front :: IntAt(r, Id) != IntAt(t, Id)) && owner in ids
    ensures var a, b := FirstRows(Join(front, links, e, ids)), FirstRows(Join(front + [t], links, e, ids));
            b == a + [t] || (b == a && !Hit(ByLink(links, e, owner), t))
  {
    var a, b := Join(front, links, e, ids), LinkRows(links, e, t, ids);
    assert (front + [t])[..|front|] == front;
    LinkRowsMembers(links, e, t, ids);
    NoOtherRow(front, t, links, e, ids);
    FirstRowsOfGroup(a, b, t);
    if Hit(ByLink(links, e, owner), t) {
      assert Joined(owner, t) in b;
    }
    assert FirstRows(a) + [] == FirstRows(a);
  }

  lemma NoOtherRow(front: seq<Row>, t: Row, links: seq<Row>, e: Edge, ids: seq<int>)
    requires forall r | r in front :: IntAt(r, Id) != IntAt(t, Id)
    ensures !HasRowWithId(FirstRows(Join(front, links, e, ids)), IntAt(t, Id))
  {
    JoinMembers(front, links, e, ids);
    FirstRowsFromJoined(Join(front, links, e, ids));
    forall r | r in FirstRows(Join(front, links, e, ids))
      ensures r in front
    {
      var out :| Joined(out, r) in Join(front, links, e, ids);
    }
  }
}
