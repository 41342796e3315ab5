/** What a loaded object holds, said of the stored rows and their columns alone. */
module LoadMeaning {
  import opened Wrappers
  import opened Schema
  import opened Relations
  import opened NaiveLoad
  import opened NaiveTrees
  import opened JoinOrder
  import opened Nodes
  import opened EdgeResults
  import opened EdgeAccessors

  // ---- Which rows a query returns, and in which order ----

  /** The rows for which a condition holds. */
  function Those(rows: seq<Row>, ok: Row -> bool): seq<Row> {
    if rows == [] then []
    else
      var n := |rows| - 1;
      Those(rows[..n], ok) + if ok(rows[n]) then [rows[n]] else []
  }

  lemma ThoseSnoc(rows: seq<Row>, r: Row, ok: Row -> bool)
    ensures Those(rows + [r], ok) == Those(rows, ok) + if ok(r) then [r] else []
  {
    assert (rows + [r])[..|rows|] == rows;
  }

  lemma {:induction false} ThoseCount(rows: seq<Row>, ok: Row -> bool, r: Row)
    ensures multiset(Those(rows, ok))[r] == if ok(r) then multiset(rows)[r] else 0
  {
    if rows != [] {
      var front, last := rows[..|rows| - 1], rows[|rows| - 1];
      assert rows == front + [last];
      ThoseCount(front, ok, r);
    }
  }

  lemma ThoseMembers(rows: seq<Row>, ok: Row -> bool)
    ensures forall r :: r in Those(rows, ok) <==> r in rows && ok(r)
  {
    forall r
      ensures r in Those(rows, ok) <==> r in rows && ok(r)
    {
      ThoseCount(rows, ok, r);
      assert r in Those(rows, ok) <==> r in multiset(Those(rows, ok));
      assert r in rows <==> r in multiset(rows);
    }
  }

  lemma {:induction false} ThoseKeepBefore(rows: seq<Row>, ok: Row -> bool, g: Row, h: Row)
    requires ok(g) && ok(h)
    ensures Before(Those(rows, ok), g, h) <==> Before(rows, g, h)
  {
    if rows != [] {
      var front, last := rows[..|rows| - 1], rows[|rows| - 1];
      assert rows == front + [last];
      ThoseKeepBefore(front, ok, g, h);
      ThoseSnoc(front, last, ok);
      ThoseMembers(front, ok);
      BeforeSnoc(front, last, g, h);
      BeforeSnoc(Those(front, ok), last, g, h);
      assert Those(front, ok) + [] == Those(front, ok);
    }
  }

  lemma {:induction false} KeepIsThose(rows: seq<Row>, where: Row -> bool, filter: InClause, ok: Row -> bool)
    requires forall r :: ok(r) <==> where(r) && Passes(filter, r)
    ensures Keep(rows, where, filter) == Those(rows, ok)
  {
    if rows != [] {
      KeepIsThose(rows[..|rows| - 1], where, filter, ok);
    }
  }

  lemma {:induction false} PickIsThose(rows: seq<Row>, s: Selector, ok: Row -> bool)
    requires forall r :: ok(r) <==> Hit(s, r)
    ensures PickRows(rows, s) == Those(rows, ok)
  {
    if rows != [] {
      var front, last := rows[..|rows| - 1], rows[|rows| - 1];
      assert rows == front + [last];
      PickIsThose(front, s, ok);
      PickRowsSnoc(front, last, s);
    }
  }

  /** Rows of one rank stay in their order. */
  lemma {:induction false} InsertIsStable(rows: seq<Row>, r: Row, rank: Row -> int, ok: Row -> bool, v: int)
    requires forall x :: ok(x) <==> rank(x) == v
    ensures Those(Insert(rows, r, rank), ok) == Those(rows + [r], ok)
  {
    if rows != [] && rank(rows[|rows| - 1]) > rank(r) {
      var front, last := rows[..|rows| - 1], rows[|rows| - 1];
      assert rows == front + [last];
      InsertIsStable(front, r, rank, ok, v);
      InsertPastLast(front, last, r, rank, ok);
      ThoseSnoc(front, r, ok);
      ThoseSnoc(front, last, ok);
      ThoseSnoc(rows, r, ok);
      assert Those(front, ok) + [] == Those(front, ok);
    }
  }

  lemma InsertPastLast(front: seq<Row>, last: Row, r: Row, rank: Row -> int, ok: Row -> bool)
    requires rank(last) > rank(r)
    ensures Those(Insert(front + [last], r, rank), ok) ==
            Those(Insert(front, r, rank), ok) + if ok(last) then [last] else []
  {
    InsertSnoc(front, last, r, rank);
    ThoseSnoc(Insert(front, r, rank), last, ok);
  }

  lemma {:induction false} OrderByIsStable(rows: seq<Row>, rank: Row -> int, ok: Row -> bool, v: int)
    requires forall x :: ok(x) <==> rank(x) == v
    ensures Those(OrderBy(rows, rank), ok) == Those(rows, ok)
  {
    if rows != [] {
      var front, last := rows[..|rows| - 1], rows[|rows| - 1];
      assert rows == front + [last];
      OrderByIsStable(front, rank, ok, v);
      InsertIsStable(OrderBy(front, rank), last, rank, ok, v);
      ThoseSnoc(OrderBy(front, rank), last, ok);
      ThoseSnoc(front, last, ok);
    }
  }

  /** Whether the IN clause lets a row pass. */
  ghost predicate IsIn(filter: InClause, row: Row) {
    filter.Everything? || exists i | i in filter.ids :: Holds(row, filter.column, i)
  }

  /** A query returns every admitted row of its table as often as it is stored, sorted by the ORDER BY. */
  lemma FetchIsExact(db: Database, q: Query, filter: InClause, r: Row)
    requires ValidDatabase(db)
    ensures multiset(Fetch(db, q, filter))[r] ==
            if q.where(r) && IsIn(filter, r) then multiset(db.tables[q.entity])[r] else 0
    ensures Ranked(Fetch(db, q, filter), q.rank)
  {
    var kept, ok := Keep(db.tables[q.entity], q.where, filter), (x: Row) => q.where(x) && Passes(filter, x);
    KeepIsThose(db.tables[q.entity], q.where, filter, ok);
    ThoseCount(db.tables[q.entity], ok, r);
    OrderByPermutes(kept, q.rank);
    OrderByRanks(kept, q.rank);
    InMeansHolds(filter, r);
  }

  lemma InMeansHolds(filter: InClause, r: Row)
    ensures Passes(filter, r) <==> IsIn(filter, r)
  {
  }

  /** Rows that the ORDER BY does not tell apart come in table order. */
  lemma FetchIsStable(db: Database, q: Query, filter: InClause, g: Row, h: Row)
    requires ValidDatabase(db) && q.rank(g) == q.rank(h)
    requires q.where(g) && q.where(h) && IsIn(filter, g) && IsIn(filter, h)
    ensures Before(Fetch(db, q, filter), g, h) <==> Before(db.tables[q.entity], g, h)
  {
    var table, v := db.tables[q.entity], q.rank(g);
    var kept := Keep(table, q.where, filter);
    var admitted, tied := (x: Row) => q.where(x) && Passes(filter, x), (x: Row) => q.rank(x) == v;
    InMeansHolds(filter, g);
    InMeansHolds(filter, h);
    KeepIsThose(table, q.where, filter, admitted);
    ThoseKeepBefore(table, admitted, g, h);
    OrderByIsStable(kept, q.rank, tied, v);
    ThoseKeepBefore(kept, tied, g, h);
    ThoseKeepBefore(OrderBy(kept, q.rank), tied, g, h);
  }

  // ---- The fields of a loaded object ----

  /** `n` is a finished object for this row, loaded by the query with these selected fields. */
  ghost predicate IsObject(db: Database, q: Query, fields: seq<Column>, row: Row, n: Node, heap: set<Node>)
    requires ValidDatabase(db)
    reads n, heap
  {
    Closed(heap) && n in heap && IsNaiveTree(db, q, fields, row, n.tree)
  }

  ghost predicate AreObjects(db: Database, q: Query, fields: seq<Column>, rows: seq<Row>, nodes: seq<Node>,
                             heap: set<Node>)
    requires ValidDatabase(db)
    reads nodes, heap
  {
    |nodes| == |rows| && forall i | 0 <= i < |nodes| :: IsObject(db, q, fields, rows[i], nodes[i], heap)
  }

  /** What `All` delivers are objects for the rows of the query, one by one. */
  lemma DeliversObjects(db: Database, q: Query, fields: seq<Column>, rows: seq<Row>, nodes: seq<Node>, heap: set<Node>)
    requires ValidDatabase(db) && Delivers(Success(nodes), db, q, fields, rows, heap)
    ensures AreObjects(db, q, fields, rows, nodes, heap)
  {
    assert forall i | 0 <= i < |nodes| :: TreesOf(nodes)[i] == nodes[i].tree;
  }

  /** Without a selection an object has all columns of its row; with one it has the selected ones, its id, and the
      foreign keys of the requested edges. NULLs are left out, and nothing else is. */
  lemma FieldsAreLoaded(db: Database, q: Query, fields: seq<Column>, row: Row, n: Node, heap: set<Node>, c: Column)
    requires ValidDatabase(db) && WellTyped(q) && IsObject(db, q, fields, row, n, heap)
    ensures n.entity == q.entity && n.loaded == q.with.Keys
    ensures c in n.fields ==> c in row && n.fields[c] == row[c]
    ensures c in n.fields <==>
            && c in row && !row[c].Null?
            && if fields == [] then c in Columns(q.entity)
               else c in fields || IsAddedKey(q, c)
  {
    assert Settled(n, heap);
    RequestedMeaning(q.entity, fields, q.with.Keys, c);
  }

  // ---- The edges of a loaded object ----

  /** Exactly the stored rows of this table that the query admits and that are wanted, as often as they are stored, and
      sorted by its ORDER BY. */
  ghost predicate AreWanted(db: Database, target: Entity, sub: Query, rows: seq<Row>, wanted: Row -> bool)
    requires ValidDatabase(db)
  {
    && sub.entity == target && Ranked(rows, sub.rank)
    && forall r :: multiset(rows)[r] == if sub.where(r) && wanted(r) then multiset(db.tables[target])[r] else 0
  }

  /** The selected fields of a sub-query to which its loader adds a column. */
  function Adding(fields: seq<Column>, c: Column): seq<Column> {
    if fields == [] || c in fields then fields else fields + [c]
  }

  /** What edge `e` holds are objects for exactly the wanted rows. */
  ghost predicate LeadsTo(db: Database, q: Query, n: Node, heap: set<Node>, e: Edge, target: Entity,
                          selected: seq<Column>, wanted: Row -> bool)
    requires ValidDatabase(db) && e in q.with
    reads n, heap
    reads if e in n.edges then n.edges[e] else []
  {
    exists rows ::
      AreWanted(db, target, q.with[e], rows, wanted) && AreObjects(db, q.with[e], selected, rows, Behind(n, e), heap)
  }

  /** The pointer of edge `e` is nil, or points to the object of the one wanted row. */
  ghost predicate PointsTo(db: Database, q: Query, n: Node, heap: set<Node>, e: Edge, target: Entity,
                           wanted: Row -> bool)
    requires ValidDatabase(db) && e in q.with
    reads n, heap
    reads if e in n.edges then n.edges[e] else []
  {
    && LeadsTo(db, q, n, heap, e, target, q.with[e].fields, wanted) && |Behind(n, e)| <= 1
    && (e in n.edges <==> Behind(n, e) != [])
    && forall p | p in db.tables[target] ::
         HasObject(db, q.with[e], p, Behind(n, e), heap) <==> q.with[e].where(p) && wanted(p)
  }

  ghost predicate HasObject(db: Database, q: Query, p: Row, nodes: seq<Node>, heap: set<Node>)
    requires ValidDatabase(db)
    reads nodes, heap
  {
    |nodes| == 1 && IsObject(db, q, q.fields, p, nodes[0], heap)
  }

  /** There is a link row for this account and this group. */
  ghost predicate IsLinked(db: Database, account: int, group: int)
    requires ValidDatabase(db)
  {
    exists l | l in db.tables[AccountGroup] :: Holds(l, AccountId, account) && Holds(l, GroupId, group)
  }

  /** The rows whose id this row holds in column `c`. */
  function NamedBy(row: Row, c: Column): Row -> bool {
    (r: Row) => Holds(row, c, IntAt(r, Id))
  }

  /** The rows that hold the id of this row in column `c`. */
  function Naming(row: Row, c: Column): Row -> bool {
    (r: Row) => Holds(r, c, IntAt(row, Id))
  }

  /** The groups that are linked to this account. */
  ghost function GroupOf(db: Database, row: Row): Row -> bool
    requires ValidDatabase(db)
  {
    (g: Row) => IsLinked(db, IntAt(row, Id), IntAt(g, Id))
  }

  /** The accounts that are linked to this group. */
  ghost function MemberOf(db: Database, row: Row): Row -> bool
    requires ValidDatabase(db)
  {
    (a: Row) => IsLinked(db, IntAt(a, Id), IntAt(row, Id))
  }

  lemma NeighboursAreWanted(db: Database, e: Edge, sub: Query, row: Row, wanted: Row -> bool)
    requires ValidDatabase(db) && sub.entity == Target(e)
    requires forall r | r in db.tables[sub.entity] ::
      wanted(r) <==> match Rel(e)
                     case ManyToOne => IsInt(row, Key(e)) && Holds(r, Id, IntAt(row, Key(e)))
                     case OneToMany => Holds(r, Key(e), IntAt(row, Id))
                     case ManyToMany => Linked(db.tables[AccountGroup], e, IntAt(row, Id), IntAt(r, Id))
    ensures AreWanted(db, Target(e), sub, Neighbours(db, e, sub, row), wanted)
  {
    var rows, table := Neighbours(db, e, sub, row), db.tables[sub.entity];
    forall r
      ensures multiset(rows)[r] == if sub.where(r) && wanted(r) then multiset(table)[r] else 0
      ensures Ranked(rows, sub.rank)
    {
      NeighbourCount(db, e, sub, row, r);
      assert r in table <==> r in multiset(table);
    }
  }

  lemma NeighbourCount(db: Database, e: Edge, sub: Query, row: Row, r: Row)
    requires ValidDatabase(db)
    ensures Ranked(Neighbours(db, e, sub, row), sub.rank)
    ensures multiset(Neighbours(db, e, sub, row))[r] ==
            if sub.where(r) && (match Rel(e)
                                case ManyToOne => IsInt(row, Key(e)) && Holds(r, Id, IntAt(row, Key(e)))
                                case OneToMany => Holds(r, Key(e), IntAt(row, Id))
                                case ManyToMany => Linked(db.tables[AccountGroup], e, IntAt(row, Id), IntAt(r, Id)))
            then multiset(db.tables[sub.entity])[r] else 0
  {
    match Rel(e)
    case ManyToOne => FetchIsExact(db, sub, In(Id, [IntAt(row, Key(e))]), r);
    case OneToMany => FetchIsExact(db, sub, In(Key(e), [IntAt(row, Id)]), r);
    case ManyToMany =>
      var s := ByLink(db.tables[AccountGroup], e, IntAt(row, Id));
      FetchIsExact(db, sub, Everything, r);
      PickIsThose(Fetch(db, sub, Everything), s, x => Hit(s, x));
      ThoseCount(Fetch(db, sub, Everything), x => Hit(s, x), r);
      PickRanked(Fetch(db, sub, Everything), s, sub.rank);
  }

  lemma TreesAreObjects(db: Database, sub: Query, selected: seq<Column>, rows: seq<Row>, nodes: seq<Node>,
                        heap: set<Node>)
    requires ValidDatabase(db) && Closed(heap) && forall c | c in nodes :: c in heap
    requires AreNaiveTrees(db, sub, selected, rows, TreesOf(nodes))
    ensures AreObjects(db, sub, selected, rows, nodes, heap)
  {
    assert forall i | 0 <= i < |nodes| :: TreesOf(nodes)[i] == nodes[i].tree;
  }

  lemma ArrangedAreWanted(db: Database, e: Edge, sub: Query, rows: seq<Row>, arranged: seq<Row>, wanted: Row -> bool)
    requires ValidDatabase(db) && Arranges(db, e, sub, arranged, rows)
    requires AreWanted(db, Target(e), sub, rows, wanted)
    ensures AreWanted(db, Target(e), sub, arranged, wanted)
  {
  }

  /** What an edge holds are objects for the neighbours of the row, in an order that the sub-query allows. */
  lemma EdgeHolds(db: Database, q: Query, fields: seq<Column>, row: Row, n: Node, heap: set<Node>, e: Edge,
                  wanted: Row -> bool)
    requires ValidDatabase(db) && IsObject(db, q, fields, row, n, heap) && e in q.with
    requires AreWanted(db, Target(e), q.with[e], Neighbours(db, e, q.with[e], row), wanted)
    ensures LeadsTo(db, q, n, heap, e, Target(e), SubFields(e, q.with[e]), wanted)
  {
    EdgeOfNode(db, q, fields, n, row, heap, e);
    var rows := ArrangedBehind(db, q, fields, row, n, heap, e);
    ArrangedAreWanted(db, e, q.with[e], Neighbours(db, e, q.with[e], row), rows, wanted);
  }

  lemma ArrangedBehind(db: Database, q: Query, fields: seq<Column>, row: Row, n: Node, heap: set<Node>, e: Edge)
    returns (rows: seq<Row>)
    requires ValidDatabase(db) && IsObject(db, q, fields, row, n, heap) && e in q.with
    ensures Arranges(db, e, q.with[e], rows, Neighbours(db, e, q.with[e], row))
    ensures AreObjects(db, q.with[e], SubFields(e, q.with[e]), rows, Behind(n, e), heap)
    ensures Rel(e).ManyToOne? ==> (e in n.edges <==> rows != [])
  {
    var sub := q.with[e];
    EdgeOfNode(db, q, fields, n, row, heap, e);
    if e in n.edges {
      rows :| Arranges(db, e, sub, rows, Neighbours(db, e, sub, row)) &&
              AreNaiveTrees(db, sub, SubFields(e, sub), rows, TreesOf(n.edges[e]));
      TreesAreObjects(db, sub, SubFields(e, sub), rows, n.edges[e], heap);
    } else {
      rows := Neighbours(db, e, sub, row);
    }
  }

  /** At most one row carries the id that a to-one edge names. */
  lemma PointerHolds(db: Database, q: Query, fields: seq<Column>, row: Row, n: Node, heap: set<Node>, e: Edge,
                     wanted: Row -> bool)
    requires ValidDatabase(db) && WellTyped(q) && IsObject(db, q, fields, row, n, heap) && e in q.with
    requires Rel(e).ManyToOne? && HasId(Target(e))
    requires AreWanted(db, Target(e), q.with[e], Neighbours(db, e, q.with[e], row), wanted)
    ensures PointsTo(db, q, n, heap, e, Target(e), wanted)
  {
    var sub := q.with[e];
    EdgeHolds(db, q, fields, row, n, heap, e, wanted);
    var rows := ArrangedBehind(db, q, fields, row, n, heap, e);
    AtMostOneNeighbour(db, e, sub, row);
    forall p | p in db.tables[Target(e)]
      ensures HasObject(db, sub, p, Behind(n, e), heap) <==> sub.where(p) && wanted(p)
    {
      OneIsWanted(db, Target(e), sub, rows, wanted, p);
      if HasObject(db, sub, p, Behind(n, e), heap) {
        SameObjectSameRow(db, sub, sub.fields, p, rows[0], Behind(n, e)[0], heap);
      }
    }
  }

  lemma AtMostOneNeighbour(db: Database, e: Edge, sub: Query, row: Row)
    requires ValidDatabase(db) && Rel(e).ManyToOne? && HasId(sub.entity)
    ensures |Neighbours(db, e, sub, row)| <= 1
  {
    FetchById(db, sub, IntAt(row, Key(e)));
  }

  lemma OneIsWanted(db: Database, target: Entity, sub: Query, rows: seq<Row>, wanted: Row -> bool, p: Row)
    requires ValidDatabase(db) && AreWanted(db, target, sub, rows, wanted) && |rows| <= 1 && p in db.tables[target]
    ensures sub.where(p) && wanted(p) <==> rows == [p]
    ensures rows != [] ==> rows[0] in db.tables[target]
  {
    assert p in multiset(db.tables[target]);
    if rows != [] {
      assert rows == [rows[0]] && multiset(rows)[rows[0]] == 1;
      assert rows[0] in multiset(db.tables[target]);
    }
    assert sub.where(p) && wanted(p) ==> p in multiset(rows);
    assert rows == [p] ==> multiset(rows)[p] == 1;
  }

  lemma SameObjectSameRow(db: Database, sub: Query, selected: seq<Column>, p: Row, r: Row, n: Node, heap: set<Node>)
    requires ValidDatabase(db) && HasId(sub.entity) && p in db.tables[sub.entity] && r in db.tables[sub.entity]
    requires IsObject(db, sub, selected, p, n, heap) && IsObject(db, sub, selected, r, n, heap)
    ensures p == r
  {
    OwnIdIsKept(sub.entity, selected, sub.with.Keys, p);
    OwnIdIsKept(sub.entity, selected, sub.with.Keys, r);
    assert IntAt(p, Id) == IntAt(r, Id);
  }

  // ---- Edge by edge ----

  lemma LeadsAlongForeignKey(db: Database, q: Query, fields: seq<Column>, row: Row, n: Node, heap: set<Node>, e: Edge,
                             c: Column, target: Entity)
    requires ValidDatabase(db) && WellTyped(q) && IsObject(db, q, fields, row, n, heap) && e in q.with
    requires Rel(e) == ManyToOne && Key(e) == c && Target(e) == target && HasId(target)
    ensures PointsTo(db, q, n, heap, e, target, NamedBy(row, c))
  {
    IdIsValid(target);
    NeighboursAreWanted(db, e, q.with[e], row, NamedBy(row, c));
    PointerHolds(db, q, fields, row, n, heap, e, NamedBy(row, c));
  }

  lemma LeadsBackAlongKey(db: Database, q: Query, fields: seq<Column>, row: Row, n: Node, heap: set<Node>, e: Edge,
                          c: Column, target: Entity)
    requires ValidDatabase(db) && WellTyped(q) && IsObject(db, q, fields, row, n, heap) && e in q.with
    requires Rel(e) == OneToMany && Key(e) == c && Target(e) == target
    ensures LeadsTo(db, q, n, heap, e, target, Adding(q.with[e].fields, c), Naming(row, c))
  {
    NeighboursAreWanted(db, e, q.with[e], row, Naming(row, c));
    EdgeHolds(db, q, fields, row, n, heap, e, Naming(row, c));
  }

  /** The proxy of an account is the one that its `proxy_id` names. */
  lemma ProxyOfAccount(db: Database, q: Query, fields: seq<Column>, row: Row, n: Node, heap: set<Node>)
    requires ValidDatabase(db) && WellTyped(q) && IsObject(db, q, fields, row, n, heap) && ProxyEdge in q.with
    ensures PointsTo(db, q, n, heap, ProxyEdge, Proxy, NamedBy(row, ProxyId))
  {
    LeadsAlongForeignKey(db, q, fields, row, n, heap, ProxyEdge, ProxyId, Proxy);
  }

  /** The parent of an account is the one that its `parent_account_id` names. */
  lemma ParentOfAccount(db: Database, q: Query, fields: seq<Column>, row: Row, n: Node, heap: set<Node>)
    requires ValidDatabase(db) && WellTyped(q) && IsObject(db, q, fields, row, n, heap) && Parent in q.with
    ensures PointsTo(db, q, n, heap, Parent, Account, NamedBy(row, ParentAccountId))
  {
    LeadsAlongForeignKey(db, q, fields, row, n, heap, Parent, ParentAccountId, Account);
  }

  /** The children of an account are the accounts whose `parent_account_id` names it. */
  lemma ChildrenOfAccount(db: Database, q: Query, fields: seq<Column>, row: Row, n: Node, heap: set<Node>)
    requires ValidDatabase(db) && WellTyped(q) && IsObject(db, q, fields, row, n, heap) && Children in q.with
    ensures LeadsTo(db, q, n, heap, Children, Account,
                    Adding(q.with[Children].fields, ParentAccountId), Naming(row, ParentAccountId))
  {
    LeadsBackAlongKey(db, q, fields, row, n, heap, Children, ParentAccountId, Account);
  }

  /** The usage logs of an account are those whose `account_id` names it. */
  lemma LogsOfAccount(db: Database, q: Query, fields: seq<Column>, row: Row, n: Node, heap: set<Node>)
    requires ValidDatabase(db) && WellTyped(q) && IsObject(db, q, fields, row, n, heap) && UsageLogs in q.with
    ensures LeadsTo(db, q, n, heap, UsageLogs, UsageLog,
                    Adding(q.with[UsageLogs].fields, AccountId), Naming(row, AccountId))
  {
    LeadsBackAlongKey(db, q, fields, row, n, heap, UsageLogs, AccountId, UsageLog);
  }

  /** The link rows of an account are those whose `account_id` names it. */
  lemma LinksOfAccount(db: Database, q: Query, fields: seq<Column>, row: Row, n: Node, heap: set<Node>)
    requires ValidDatabase(db) && WellTyped(q) && IsObject(db, q, fields, row, n, heap) && AccountGroups in q.with
    ensures LeadsTo(db, q, n, heap, AccountGroups, AccountGroup,
                    Adding(q.with[AccountGroups].fields, AccountId), Naming(row, AccountId))
  {
    LeadsBackAlongKey(db, q, fields, row, n, heap, AccountGroups, AccountId, AccountGroup);
  }

  /** The groups of an account are those that its link rows name. */
  lemma GroupsOfAccount(db: Database, q: Query, fields: seq<Column>, row: Row, n: Node, heap: set<Node>)
    requires ValidDatabase(db) && WellTyped(q) && IsObject(db, q, fields, row, n, heap) && Groups in q.with
    ensures LeadsTo(db, q, n, heap, Groups, Group, q.with[Groups].fields, GroupOf(db, row))
  {
    NeighboursAreWanted(db, Groups, q.with[Groups], row, GroupOf(db, row));
    EdgeHolds(db, q, fields, row, n, heap, Groups, GroupOf(db, row));
  }

  /** The account of a link row is the one that its `account_id` names. */
  lemma AccountOfLink(db: Database, q: Query, fields: seq<Column>, row: Row, n: Node, heap: set<Node>)
    requires ValidDatabase(db) && WellTyped(q) && IsObject(db, q, fields, row, n, heap) && LinkAccount in q.with
    ensures PointsTo(db, q, n, heap, LinkAccount, Account, NamedBy(row, AccountId))
  {
    LeadsAlongForeignKey(db, q, fields, row, n, heap, LinkAccount, AccountId, Account);
  }

  /** The group of a link row is the one that its `group_id` names. */
  lemma GroupOfLink(db: Database, q: Query, fields: seq<Column>, row: Row, n: Node, heap: set<Node>)
    requires ValidDatabase(db) && WellTyped(q) && IsObject(db, q, fields, row, n, heap) && LinkGroup in q.with
    ensures PointsTo(db, q, n, heap, LinkGroup, Group, NamedBy(row, GroupId))
  {
    LeadsAlongForeignKey(db, q, fields, row, n, heap, LinkGroup, GroupId, Group);
  }

  /** The accounts of a group are those that its link rows name. */
  lemma AccountsOfGroup(db: Database, q: Query, fields: seq<Column>, row: Row, n: Node, heap: set<Node>)
    requires ValidDatabase(db) && WellTyped(q) && IsObject(db, q, fields, row, n, heap) && GroupAccounts in q.with
    ensures LeadsTo(db, q, n, heap, GroupAccounts, Account, q.with[GroupAccounts].fields, MemberOf(db, row))
  {
    NeighboursAreWanted(db, GroupAccounts, q.with[GroupAccounts], row, MemberOf(db, row));
    EdgeHolds(db, q, fields, row, n, heap, GroupAccounts, MemberOf(db, row));
  }

  /** The link rows of a group are those whose `group_id` names it. */
  lemma LinksOfGroup(db: Database, q: Query, fields: seq<Column>, row: Row, n: Node, heap: set<Node>)
    requires ValidDatabase(db) && WellTyped(q) && IsObject(db, q, fields, row, n, heap) && GroupLinks in q.with
    ensures LeadsTo(db, q, n, heap, GroupLinks, AccountGroup,
                    Adding(q.with[GroupLinks].fields, GroupId), Naming(row, GroupId))
  {
    LeadsBackAlongKey(db, q, fields, row, n, heap, GroupLinks, GroupId, AccountGroup);
  }

  /** The accounts of a proxy are those whose `proxy_id` names it. */
  lemma AccountsOfProxy(db: Database, q: Query, fields: seq<Column>, row: Row, n: Node, heap: set<Node>)
    requires ValidDatabase(db) && WellTyped(q) && IsObject(db, q, fields, row, n, heap) && ProxyAccounts in q.with
    ensures LeadsTo(db, q, n, heap, ProxyAccounts, Account,
                    Adding(q.with[ProxyAccounts].fields, ProxyId), Naming(row, ProxyId))
  {
    LeadsBackAlongKey(db, q, fields, row, n, heap, ProxyAccounts, ProxyId, Account);
  }

  /** The account of a usage log is the one that its `account_id` names. */
  lemma AccountOfLog(db: Database, q: Query, fields: seq<Column>, row: Row, n: Node, heap: set<Node>)
    requires ValidDatabase(db) && WellTyped(q) && IsObject(db, q, fields, row, n, heap) && UsageLogAccount in q.with
    ensures PointsTo(db, q, n, heap, UsageLogAccount, Account, NamedBy(row, AccountId))
  {
    LeadsAlongForeignKey(db, q, fields, row, n, heap, UsageLogAccount, AccountId, Account);
  }
}
