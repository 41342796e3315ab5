/** Tables as sequences of rows, and what the SQL layer returns for a query. */
module Relations {
  import opened Schema

  /** A query and its `With*` sub-queries. `where` gathers the user's predicates and those of the
      interceptors, `rank` stands for the ORDER BY terms. An empty `fields` list selects all columns. */
  datatype Query = Query(
    entity: Entity,
    fields: seq<Column>,
    where: Row -> bool,
    rank: Row -> int,
    with: map<Edge, Query>)

  /** A row of the join behind a many-to-many edge: the owner's id selected in front of a target row. */
  datatype Joined = Joined(out: int, row: Row)

  /** `joinOrder` is the order in which the database returns the rows of a join for some ORDER BY. */
  datatype Database = Database(
    tables: map<Entity, seq<Row>>,
    joinOrder: (seq<Joined>, Row -> int) -> seq<Joined>)

  /** The IN clause that a loader adds to its sub-query. */
  datatype InClause = Everything | In(column: Column, ids: seq<int>)

  ghost predicate ValidRow(entity: Entity, row: Row) {
    forall c {:trigger ValidColumn(entity, c)} | ValidColumn(entity, c) ::
      c in row && HasKind(row[c], KindOf(c)) && (NotNull(c) ==> !row[c].Null?)
  }

  /** Rows obey the column types and NOT NULL constraints, and ids are a primary key. */
  ghost predicate ValidTable(entity: Entity, rows: seq<Row>) {
    && (forall r | r in rows :: ValidRow(entity, r))
    && (HasId(entity) ==> DistinctIds(rows))
  }

  /** A table holds all columns of its entity, ids and link keys are set, and no id comes twice; a link may. */
  lemma StoredRows(entity: Entity, rows: seq<Row>)
    ensures ValidTable(entity, rows) <==>
            && (forall r: Row, c: Column | r in rows && c in Columns(entity) ::
                  c in r && HasKind(r[c], KindOf(c)) && (c == Id || c == AccountId || c == GroupId ==> !r[c].Null?))
            && (entity != AccountGroup ==>
                  forall i, j | 0 <= i < j < |rows| :: IntAt(rows[i], Id) != IntAt(rows[j], Id))
  {
    forall c
      ensures c in Columns(entity) <==> ValidColumn(entity, c)
    {
      ColumnsAreValid(entity, c);
    }
  }

  ghost predicate ValidDatabase(db: Database) {
    && (forall entity: Entity :: entity in db.tables && ValidTable(entity, db.tables[entity]))
    && ValidJoinOrder(db)
  }

  ghost predicate SameJoinedRows(a: seq<Joined>, b: seq<Joined>) {
    forall j :: j in a <==> j in b
  }

  /** The rows of a join follow its ORDER BY. */
  ghost predicate RankedJoin(joined: seq<Joined>, rank: Row -> int) {
    forall i, j | 0 <= i < j < |joined| :: rank(joined[i].row) <= rank(joined[j].row)
  }

  /** The database returns the rows of a join in any order that the ORDER BY allows. */
  ghost predicate ValidJoinOrder(db: Database) {
    forall joined: seq<Joined>, rank: Row -> int ::
      && SameJoinedRows(db.joinOrder(joined, rank), joined)
      && (RankedJoin(joined, rank) ==> RankedJoin(db.joinOrder(joined, rank), rank))
  }

  /** `With*` can only attach a sub-query to an edge of the right entities. */
  ghost predicate WellTyped(q: Query) {
    forall e | e in q.with :: Owner(e) == q.entity && q.with[e].entity == Target(e) && WellTyped(q.with[e])
  }

  /** The integer in a column; Go's zero value when the column is NULL or was not selected. */
  function IntAt(row: Row, c: Column): int {
    if c in row && row[c].IntV? then row[c].i else 0
  }

  predicate IsInt(row: Row, c: Column) {
    c in row && row[c].IntV?
  }

  /** Whether column `c` of the row holds exactly this integer. */
  predicate Holds(row: Row, c: Column, i: int) {
    c in row && row[c] == IntV(i)
  }

  ghost predicate DistinctIds(rows: seq<Row>) {
    forall i, j | 0 <= i < j < |rows| :: IntAt(rows[i], Id) != IntAt(rows[j], Id)
  }

  predicate Passes(filter: InClause, row: Row) {
    filter.In? ==> filter.column in row && row[filter.column].IntV? && row[filter.column].i in filter.ids
  }

  function Keep(rows: seq<Row>, where: Row -> bool, filter: InClause): seq<Row> {
    if rows == [] then []
    else
      var r := rows[|rows| - 1];
      Keep(rows[..|rows| - 1], where, filter) + if where(r) && Passes(filter, r) then [r] else []
  }

  /** Inserts a row behind the last row that does not rank above it. */
  function Insert(rows: seq<Row>, r: Row, rank: Row -> int): seq<Row> {
    if rows == [] || rank(rows[|rows| - 1]) <= rank(r) then rows + [r]
    else Insert(rows[..|rows| - 1], r, rank) + [rows[|rows| - 1]]
  }

  /** ORDER BY: the stable sort of the rows. */
  function OrderBy(rows: seq<Row>, rank: Row -> int): seq<Row> {
    if rows == [] then [] else Insert(OrderBy(rows[..|rows| - 1], rank), rows[|rows| - 1], rank)
  }

  /** What `sqlgraph.QueryNodes` returns: the matching rows, in the query's order. */
  function Fetch(db: Database, q: Query, filter: InClause): seq<Row>
    requires ValidDatabase(db)
  {
    OrderBy(Keep(db.tables[q.entity], q.where, filter), q.rank)
  }

  /** The rows of the link table that connect `target` to one of the owners `ids`. */
  function LinkRows(links: seq<Row>, e: Edge, target: Row, ids: seq<int>): seq<Joined> {
    if links == [] then []
    else
      var l := links[|links| - 1];
      LinkRows(links[..|links| - 1], e, target, ids) +
      if Holds(l, FarKey(e), IntAt(target, Id)) && IsInt(l, Key(e)) && IntAt(l, Key(e)) in ids
      then [Joined(IntAt(l, Key(e)), target)] else []
  }

  /** The join of the target rows with the link table. */
  function Join(targets: seq<Row>, links: seq<Row>, e: Edge, ids: seq<int>): seq<Joined> {
    if targets == [] then []
    else
      Join(targets[..|targets| - 1], links, e, ids) + LinkRows(links, e, targets[|targets| - 1], ids)
  }

  predicate Linked(links: seq<Row>, e: Edge, owner: int, target: int) {
    exists l | l in links :: Holds(l, Key(e), owner) && Holds(l, FarKey(e), target)
  }

  /** How the rows that belong to one owner are recognised. */
  datatype Selector =
    | ByKey(column: Column, id: int)
    | ByLink(links: seq<Row>, e: Edge, owner: int)
    | ByJoined(joined: seq<Joined>, owner: int)

  predicate Hit(s: Selector, row: Row) {
    match s
    case ByKey(c, id) => Holds(row, c, id)
    case ByLink(links, e, owner) => Linked(links, e, owner, IntAt(row, Id))
    case ByJoined(joined, owner) => Joined(owner, row) in joined
  }

  /** A rule that tells the rows of every owner apart. */
  datatype Matcher = OnKey(column: Column) | OnJoined(joined: seq<Joined>)

  function SelectorFor(m: Matcher, owner: int): Selector {
    match m
    case OnKey(c) => ByKey(c, owner)
    case OnJoined(joined) => ByJoined(joined, owner)
  }

  /** The items whose row is hit; `items` runs parallel to `rows`. */
  function Pick<T>(items: seq<T>, rows: seq<Row>, s: Selector): seq<T>
    requires |items| == |rows|
  {
    if rows == [] then []
    else
      var n := |rows| - 1;
      Pick(items[..n], rows[..n], s) + if Hit(s, rows[n]) then [items[n]] else []
  }

  // ---- Filtering and sorting ----

  lemma {:induction false} KeepMembers(rows: seq<Row>, where: Row -> bool, filter: InClause)
    ensures forall r :: r in Keep(rows, where, filter) <==> r in rows && where(r) && Passes(filter, r)
  {
    if rows != [] {
      var n := |rows| - 1;
      KeepMembers(rows[..n], where, filter);
      assert rows == rows[..n] + [rows[n]];
    }
  }

  lemma {:induction false} InsertMembers(rows: seq<Row>, r: Row, rank: Row -> int)
    ensures multiset(Insert(rows, r, rank)) == multiset(rows) + multiset{r}
  {
    if !(rows == [] || rank(rows[|rows| - 1]) <= rank(r)) {
      var n := |rows| - 1;
      InsertMembers(rows[..n], r, rank);
      assert rows == rows[..n] + [rows[n]];
    }
  }

  /** Sorting permutes the rows. */
  lemma {:induction false} OrderByPermutes(rows: seq<Row>, rank: Row -> int)
    ensures multiset(OrderBy(rows, rank)) == multiset(rows)
  {
    if rows != [] {
      var n := |rows| - 1;
      OrderByPermutes(rows[..n], rank);
      InsertMembers(OrderBy(rows[..n], rank), rows[n], rank);
      assert rows == rows[..n] + [rows[n]];
    }
  }

  ghost predicate Ranked(rows: seq<Row>, rank: Row -> int) {
    forall i, j | 0 <= i < j < |rows| :: rank(rows[i]) <= rank(rows[j])
  }

  lemma {:induction false} InsertRanked(rows: seq<Row>, r: Row, rank: Row -> int)
    requires Ranked(rows, rank)
    ensures Ranked(Insert(rows, r, rank), rank)
  {
    if !(rows == [] || rank(rows[|rows| - 1]) <= rank(r)) {
      var n := |rows| - 1;
      InsertRanked(rows[..n], r, rank);
      InsertBelow(rows[..n], r, rank, rank(rows[n]));
    }
  }

  lemma InsertBelow(rows: seq<Row>, r: Row, rank: Row -> int, top: int)
    requires rank(r) <= top && forall i | 0 <= i < |rows| :: rank(rows[i]) <= top
    ensures forall i | 0 <= i < |Insert(rows, r, rank)| :: rank(Insert(rows, r, rank)[i]) <= top
  {
    InsertMembers(rows, r, rank);
    var more := Insert(rows, r, rank);
    forall i | 0 <= i < |more|
      ensures rank(more[i]) <= top
    {
      assert more[i] in multiset(more);
      assert more[i] in rows || more[i] == r;
    }
  }

  /** Sorting sorts. */
  lemma {:induction false} OrderByRanks(rows: seq<Row>, rank: Row -> int)
    ensures Ranked(OrderBy(rows, rank), rank)
  {
    if rows != [] {
      var n := |rows| - 1;
      OrderByRanks(rows[..n], rank);
      InsertRanked(OrderBy(rows[..n], rank), rows[n], rank);
    }
  }

  /** The rows themselves, filtered by a selector. */
  function PickRows(rows: seq<Row>, s: Selector): seq<Row> {
    Pick(rows, rows, s)
  }

  lemma PickRowsSnoc(rows: seq<Row>, r: Row, s: Selector)
    ensures PickRows(rows + [r], s) == PickRows(rows, s) + if Hit(s, r) then [r] else []
  {
    assert (rows + [r])[..|rows|] == rows;
  }

  lemma {:induction false} PickMembers(rows: seq<Row>, s: Selector)
    ensures forall r :: r in PickRows(rows, s) <==> r in rows && Hit(s, r)
  {
    if rows != [] {
      var n := |rows| - 1;
      PickMembers(rows[..n], s);
      assert rows == rows[..n] + [rows[n]];
    }
  }

  lemma {:induction false} PickInsert(rows: seq<Row>, r: Row, rank: Row -> int, s: Selector)
    requires Ranked(rows, rank)
    ensures PickRows(Insert(rows, r, rank), s) ==
            if Hit(s, r) then Insert(PickRows(rows, s), r, rank) else PickRows(rows, s)
  {
    if rows == [] || rank(rows[|rows| - 1]) <= rank(r) {
      PickInsertLast(rows, r, rank, s);
    } else {
      var front, last := rows[..|rows| - 1], rows[|rows| - 1];
      PickInsert(front, r, rank, s);
      PickInsertEarlier(front, last, r, rank, s);
      assert rows == front + [last];
    }
  }

  lemma PickInsertLast(rows: seq<Row>, r: Row, rank: Row -> int, s: Selector)
    requires Ranked(rows, rank) && (rows == [] || rank(rows[|rows| - 1]) <= rank(r))
    ensures PickRows(Insert(rows, r, rank), s) ==
            if Hit(s, r) then Insert(PickRows(rows, s), r, rank) else PickRows(rows, s)
  {
    var picked := PickRows(rows, s);
    assert Insert(rows, r, rank) == rows + [r];
    PickRowsSnoc(rows, r, s);
    LastPicked(rows, s);
    if picked != [] {
      assert rank(picked[|picked| - 1]) <= rank(rows[|rows| - 1]);
    }
  }

  lemma LastPicked(rows: seq<Row>, s: Selector)
    ensures PickRows(rows, s) != [] ==> PickRows(rows, s)[|PickRows(rows, s)| - 1] in rows
  {
    PickMembers(rows, s);
  }

  lemma PickInsertEarlier(front: seq<Row>, last: Row, r: Row, rank: Row -> int, s: Selector)
    requires rank(r) < rank(last)
    requires PickRows(Insert(front, r, rank), s) ==
             if Hit(s, r) then Insert(PickRows(front, s), r, rank) else PickRows(front, s)
    ensures PickRows(Insert(front + [last], r, rank), s) ==
            if Hit(s, r) then Insert(PickRows(front + [last], s), r, rank) else PickRows(front + [last], s)
  {
    InsertSnoc(front, last, r, rank);
    PickRowsSnoc(Insert(front, r, rank), last, s);
    PickRowsSnoc(front, last, s);
    if Hit(s, last) {
      InsertSnoc(PickRows(front, s), last, r, rank);
    } else {
      assert PickRows(front, s) + [] == PickRows(front, s);
    }
  }

  lemma InsertSnoc(rows: seq<Row>, last: Row, r: Row, rank: Row -> int)
    requires rank(r) < rank(last)
    ensures Insert(rows + [last], r, rank) == Insert(rows, r, rank) + [last]
  {
    assert (rows + [last])[..|rows|] == rows;
  }

  lemma OrderBySnoc(rows: seq<Row>, r: Row, rank: Row -> int)
    ensures OrderBy(rows + [r], rank) == Insert(OrderBy(rows, rank), r, rank)
  {
    assert (rows + [r])[..|rows|] == rows;
  }

  /** Picking rows out of an ordered result is ordering the picked rows. */
  lemma {:induction false} PickOrderBy(rows: seq<Row>, rank: Row -> int, s: Selector)
    ensures PickRows(OrderBy(rows, rank), s) == OrderBy(PickRows(rows, s), rank)
    decreases |rows|, 1
  {
    if rows == [] {
      assert OrderBy(rows, rank) == [] && PickRows(rows, s) == [];
    } else {
      var front, r := rows[..|rows| - 1], rows[|rows| - 1];
      assert rows == front + [r];
      PickOrderBySnoc(front, r, rank, s);
    }
  }

  lemma {:induction false} PickOrderBySnoc(front: seq<Row>, r: Row, rank: Row -> int, s: Selector)
    ensures PickRows(OrderBy(front + [r], rank), s) == OrderBy(PickRows(front + [r], s), rank)
    decreases |front| + 1, 0
  {
    var sorted := OrderBy(front, rank);
    PickOrderBy(front, rank, s);
    OrderByRanks(front, rank);
    OrderBySnoc(front, r, rank);
    PickRowsSnoc(front, r, s);
    PickInsert(sorted, r, rank, s);
    if Hit(s, r) {
      OrderBySnoc(PickRows(front, s), r, rank);
    } else {
      assert PickRows(front, s) + [] == PickRows(front, s);
    }
  }

  lemma {:induction false} PickKeep(rows: seq<Row>, where: Row -> bool, c: Column, ids: seq<int>, id: int)
    requires id in ids
    ensures PickRows(Keep(rows, where, In(c, ids)), ByKey(c, id)) == Keep(rows, where, In(c, [id]))
  {
    if rows != [] {
      var n := |rows| - 1;
      PickKeep(rows[..n], where, c, ids, id);
      var kept := Keep(rows[..n], where, In(c, ids));
      PickRowsSnoc(kept, rows[n], ByKey(c, id));
      assert kept + [] == kept;
    }
  }

  /** The rows of one owner inside the batched result are the result of that owner's own query. */
  lemma BatchedSlice(db: Database, q: Query, c: Column, ids: seq<int>, id: int)
    requires ValidDatabase(db) && id in ids
    ensures PickRows(Fetch(db, q, In(c, ids)), ByKey(c, id)) == Fetch(db, q, In(c, [id]))
  {
    PickOrderBy(Keep(db.tables[q.entity], q.where, In(c, ids)), q.rank, ByKey(c, id));
    PickKeep(db.tables[q.entity], q.where, c, ids, id);
  }

  lemma FetchMembers(db: Database, q: Query, filter: InClause)
    requires ValidDatabase(db)
    ensures forall r :: r in Fetch(db, q, filter) <==>
                        r in db.tables[q.entity] && q.where(r) && Passes(filter, r)
    ensures forall r | r in Fetch(db, q, filter) :: ValidRow(q.entity, r)
  {
    var kept := Keep(db.tables[q.entity], q.where, filter);
    KeepMembers(db.tables[q.entity], q.where, filter);
    OrderByPermutes(kept, q.rank);
    forall r
      ensures r in Fetch(db, q, filter) <==> r in kept
    {
      assert r in multiset(Fetch(db, q, filter)) <==> r in multiset(kept);
    }
  }

  // ---- Distinct ids ----

  function Ids(rows: seq<Row>): seq<int> {
    seq(|rows|, i requires 0 <= i < |rows| => IntAt(rows[i], Id))
  }

  lemma {:induction false} KeepDistinct(rows: seq<Row>, where: Row -> bool, filter: InClause)
    requires DistinctIds(rows)
    ensures DistinctIds(Keep(rows, where, filter))
  {
    if rows != [] {
      var n := |rows| - 1;
      KeepDistinct(rows[..n], where, filter);
      KeepMembers(rows[..n], where, filter);
      var kept := Keep(rows[..n], where, filter);
      forall i | 0 <= i < |kept|
        ensures IntAt(kept[i], Id) != IntAt(rows[n], Id)
      {
        assert kept[i] in kept;
        var k :| 0 <= k < n && rows[k] == kept[i];
      }
    }
  }

  lemma {:induction false} InsertDistinct(rows: seq<Row>, r: Row, rank: Row -> int)
    requires DistinctIds(rows + [r])
    ensures DistinctIds(Insert(rows, r, rank))
  {
    if !(rows == [] || rank(rows[|rows| - 1]) <= rank(r)) {
      var n := |rows| - 1;
      forall i, j | 0 <= i < j < |rows[..n] + [r]|
        ensures IntAt((rows[..n] + [r])[i], Id) != IntAt((rows[..n] + [r])[j], Id)
      {
        assert (rows + [r])[i] == (rows[..n] + [r])[i];
        assert (rows + [r])[if j == n then n + 1 else j] == (rows[..n] + [r])[j];
      }
      InsertDistinct(rows[..n], r, rank);
      InsertMembers(rows[..n], r, rank);
      var shorter := Insert(rows[..n], r, rank);
      forall i | 0 <= i < |shorter|
        ensures IntAt(shorter[i], Id) != IntAt(rows[n], Id)
      {
        assert shorter[i] in multiset(shorter);
        if shorter[i] == r {
          assert (rows + [r])[n] == rows[n] && (rows + [r])[n + 1] == r;
        } else {
          var k :| 0 <= k < n && rows[k] == shorter[i];
          assert (rows + [r])[k] == rows[k] && (rows + [r])[n] == rows[n];
        }
      }
    }
  }

  lemma AppendDistinct(rows: seq<Row>, r: Row)
    requires DistinctIds(rows)
    requires forall k | k in rows :: IntAt(k, Id) != IntAt(r, Id)
    ensures DistinctIds(rows + [r])
  {
  }

  lemma OrderByMember(rows: seq<Row>, rank: Row -> int, r: Row)
    ensures r in OrderBy(rows, rank) <==> r in rows
  {
    OrderByPermutes(rows, rank);
    assert r in multiset(OrderBy(rows, rank)) <==> r in multiset(rows);
  }

  lemma {:induction false} OrderByDistinct(rows: seq<Row>, rank: Row -> int)
    requires DistinctIds(rows)
    ensures DistinctIds(OrderBy(rows, rank))
  {
    if rows != [] {
      var n := |rows| - 1;
      var sorted := OrderBy(rows[..n], rank);
      OrderByDistinct(rows[..n], rank);
      forall k | k in sorted
        ensures IntAt(k, Id) != IntAt(rows[n], Id)
      {
        OrderByMember(rows[..n], rank, k);
        var i :| 0 <= i < n && rows[..n][i] == k;
        assert rows[i] == k;
      }
      AppendDistinct(sorted, rows[n]);
      InsertDistinct(sorted, rows[n], rank);
    }
  }

  /** A query on a table with a primary key never returns an id twice. */
  lemma FetchDistinct(db: Database, q: Query, filter: InClause)
    requires ValidDatabase(db) && HasId(q.entity)
    ensures DistinctIds(Fetch(db, q, filter))
  {
    KeepDistinct(db.tables[q.entity], q.where, filter);
    OrderByDistinct(Keep(db.tables[q.entity], q.where, filter), q.rank);
  }

  /** At most one row carries an id. */
  lemma FetchById(db: Database, q: Query, id: int)
    requires ValidDatabase(db) && HasId(q.entity)
    ensures |Fetch(db, q, In(Id, [id]))| <= 1
  {
    var rows := Fetch(db, q, In(Id, [id]));
    FetchMembers(db, q, In(Id, [id]));
    assert forall r | r in rows :: IntAt(r, Id) == id;
    assert |rows| > 1 ==> IntAt(rows[0], Id) == IntAt(rows[1], Id);
    FetchDistinct(db, q, In(Id, [id]));
  }

  lemma {:induction false} PickSubset<T>(items: seq<T>, rows: seq<Row>, s: Selector)
    requires |items| == |rows|
    ensures forall x | x in Pick(items, rows, s) :: x in items
  {
    if rows != [] {
      var n := |rows| - 1;
      PickSubset(items[..n], rows[..n], s);
    }
  }

  lemma PickSnoc<T>(items: seq<T>, rows: seq<Row>, k: nat, s: Selector)
    requires k < |items| == |rows|
    ensures Pick(items[..k + 1], rows[..k + 1], s) ==
            Pick(items[..k], rows[..k], s) + if Hit(s, rows[k]) then [items[k]] else []
  {
    assert items[..k + 1][..k] == items[..k] && rows[..k + 1][..k] == rows[..k];
  }
}
