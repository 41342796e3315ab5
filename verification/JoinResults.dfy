/** The joined result behind a many-to-many edge, in whatever order the database returns it. */
module JoinResults {
  import opened Schema
  import opened Relations
  import opened NaiveLoad
  import opened NaiveTrees
  import opened JoinOrder

  /** The join that a many-to-many loader runs for these owners. */
  function JoinFor(db: Database, e: Edge, sub: Query, ids: seq<int>): seq<Joined>
    requires ValidDatabase(db)
  {
    Join(Fetch(db, sub, Everything), db.tables[AccountGroup], e, ids)
  }

  /** `joined` holds the rows of that join, as often and in any order that the ORDER BY of the sub-query allows. */
  ghost predicate IsJoinResult(db: Database, e: Edge, sub: Query, ids: seq<int>, joined: seq<Joined>)
    requires ValidDatabase(db)
  {
    && SameJoinedRows(joined, JoinFor(db, e, sub, ids))
    && RankedJoin(joined, sub.rank)
    && (KeepsOrder(db) ==> FirstRows(joined) == FirstRows(JoinFor(db, e, sub, ids)))
  }

  /** The call of the database. Nothing is known about the result but what the query says. */
  method QueryJoined(db: Database, e: Edge, sub: Query, ids: seq<int>) returns (joined: seq<Joined>)
    requires ValidDatabase(db)
    ensures IsJoinResult(db, e, sub, ids, joined)
  {
    OrderedIsJoinResult(db, e, sub, ids);
    joined := db.joinOrder(JoinFor(db, e, sub, ids), sub.rank);
  }

  lemma OrderedIsJoinResult(db: Database, e: Edge, sub: Query, ids: seq<int>)
    requires ValidDatabase(db)
    ensures IsJoinResult(db, e, sub, ids, db.joinOrder(JoinFor(db, e, sub, ids), sub.rank))
  {
    OrderByRanks(Keep(db.tables[sub.entity], sub.where, Everything), sub.rank);
    JoinRanked(Fetch(db, sub, Everything), db.tables[AccountGroup], e, ids, sub.rank);
  }

  lemma {:induction false} JoinRanked(targets: seq<Row>, links: seq<Row>, e: Edge, ids: seq<int>, rank: Row -> int)
    requires Ranked(targets, rank)
    ensures RankedJoin(Join(targets, links, e, ids), rank)
  {
    if targets != [] {
      var n := |targets| - 1;
      var front, t := targets[..n], targets[n];
      JoinRanked(front, links, e, ids, rank);
      JoinMembers(front, links, e, ids);
      LinkRowsMembers(links, e, t, ids);
      var a, b := Join(front, links, e, ids), LinkRows(links, e, t, ids);
      forall i | 0 <= i < |a|
        ensures rank(a[i].row) <= rank(t)
      {
        assert a[i] in a;
        var k :| 0 <= k < n && front[k] == a[i].row;
        assert targets[k] == a[i].row;
      }
      assert forall i | 0 <= i < |b| :: b[i] in b && b[i].row == t;
    }
  }

  /** What the rows of a result are. */
  lemma JoinResultRows(db: Database, e: Edge, sub: Query, ids: seq<int>, joined: seq<Joined>)
    requires ValidDatabase(db) && HasId(sub.entity) && IsJoinResult(db, e, sub, ids, joined)
    ensures forall j :: j in joined <==>
              j.row in Fetch(db, sub, Everything) && j.out in ids &&
              Linked(db.tables[AccountGroup], e, j.out, IntAt(j.row, Id))
    ensures RowsById(joined) && forall j | j in joined :: ValidRow(sub.entity, j.row)
  {
    JoinMembers(Fetch(db, sub, Everything), db.tables[AccountGroup], e, ids);
    FetchMembers(db, sub, Everything);
    FetchDistinct(db, sub, Everything);
    TargetsById(Fetch(db, sub, Everything), joined);
  }

  lemma TargetsById(targets: seq<Row>, joined: seq<Joined>)
    requires DistinctIds(targets) && forall j | j in joined :: j.row in targets
    ensures RowsById(joined)
  {
  }

  lemma FirstRowsAreValid(db: Database, e: Edge, sub: Query, ids: seq<int>, joined: seq<Joined>)
    requires ValidDatabase(db) && HasId(sub.entity) && IsJoinResult(db, e, sub, ids, joined)
    ensures ValidTable(sub.entity, FirstRows(joined))
  {
    JoinResultRows(db, e, sub, ids, joined);
    FirstRowsDistinct(joined);
    FirstRowsFromJoined(joined);
    forall r | r in FirstRows(joined)
      ensures ValidRow(sub.entity, r)
    {
      var out :| Joined(out, r) in joined;
    }
  }

  // ---- The rows of one owner ----

  lemma LinkedMembers(db: Database, e: Edge, sub: Query, ids: seq<int>, joined: seq<Joined>, row: Row)
    requires ValidDatabase(db) && Rel(e).ManyToMany? && HasId(sub.entity) && IsJoinResult(db, e, sub, ids, joined)
    requires IntAt(row, Id) in ids
    ensures forall r :: r in LinkedRows(joined, IntAt(row, Id)) <==> r in Neighbours(db, e, sub, row)
  {
    JoinResultRows(db, e, sub, ids, joined);
    AnyJoinOrder(joined, IntAt(row, Id));
    PickMembers(Fetch(db, sub, Everything), ByLink(db.tables[AccountGroup], e, IntAt(row, Id)));
  }

  lemma {:induction false} OnceCount(rows: seq<Row>, r: Row)
    requires Once(rows)
    ensures multiset(rows)[r] == if r in rows then 1 else 0
  {
    if rows != [] {
      var n := |rows| - 1;
      assert rows == rows[..n] + [rows[n]];
      NotInFront(rows[..n], rows[n]);
      OnceCount(rows[..n], r);
    }
  }

  lemma OnceSameMultiset(a: seq<Row>, b: seq<Row>)
    requires Once(a) && Once(b) && forall r :: r in a <==> r in b
    ensures multiset(a) == multiset(b)
  {
    forall r
      ensures multiset(a)[r] == multiset(b)[r]
    {
      OnceCount(a, r);
      OnceCount(b, r);
    }
  }

  lemma {:induction false} FirstRowsRanked(joined: seq<Joined>, rank: Row -> int)
    requires RankedJoin(joined, rank)
    ensures Ranked(FirstRows(joined), rank)
    ensures joined != [] ==> forall r | r in FirstRows(joined) :: rank(r) <= rank(joined[|joined| - 1].row)
  {
    if joined != [] {
      var n := |joined| - 1;
      var front := joined[..n];
      FirstRowsRanked(front, rank);
      assert front != [] ==> rank(joined[n - 1].row) <= rank(joined[n].row) && front[n - 1] == joined[n - 1];
      assert joined == front + [joined[n]];
      FirstRowsSnoc(front, joined[n]);
      assert forall r | r in FirstRows(front) :: rank(r) <= rank(joined[n].row);
    }
  }

  lemma {:induction false} PickSame(rows: seq<Row>, s: Selector, s': Selector)
    requires forall r | r in rows :: Hit(s, r) <==> Hit(s', r)
    ensures PickRows(rows, s) == PickRows(rows, s')
  {
    if rows != [] {
      var n := |rows| - 1;
      assert rows[n] in rows && forall r | r in rows[..n] :: r in rows;
      PickSame(rows[..n], s, s');
    }
  }

  lemma HitsAgree(db: Database, e: Edge, sub: Query, ids: seq<int>, joined: seq<Joined>, owner: int)
    requires ValidDatabase(db) && HasId(sub.entity) && IsJoinResult(db, e, sub, ids, joined) && owner in ids
    ensures forall r | r in FirstRows(joined) ::
              Hit(ByJoined(joined, owner), r) <==> Hit(ByLink(db.tables[AccountGroup], e, owner), r)
  {
    JoinResultRows(db, e, sub, ids, joined);
    FirstRowsFromJoined(joined);
    forall r | r in FirstRows(joined)
      ensures r in Fetch(db, sub, Everything)
    {
      var out :| Joined(out, r) in joined;
    }
  }

  /** A database that keeps the order of the targets gives every owner its rows in that order. */
  lemma LinkedInOrder(db: Database, e: Edge, sub: Query, ids: seq<int>, joined: seq<Joined>, row: Row)
    requires ValidDatabase(db) && Rel(e).ManyToMany? && HasId(sub.entity) && IsJoinResult(db, e, sub, ids, joined)
    requires IntAt(row, Id) in ids && FirstRows(joined) == FirstRows(JoinFor(db, e, sub, ids))
    ensures LinkedRows(joined, IntAt(row, Id)) == Neighbours(db, e, sub, row)
  {
    var targets, links, owner := Fetch(db, sub, Everything), db.tables[AccountGroup], IntAt(row, Id);
    HitsAgree(db, e, sub, ids, joined, owner);
    PickSame(FirstRows(joined), ByJoined(joined, owner), ByLink(links, e, owner));
    FetchDistinct(db, sub, Everything);
    PickFirstRows(targets, links, e, ids, owner);
  }

  /** Whatever order the result comes in, the rows of an owner are its neighbours, arranged as its own query may
      arrange them. */
  lemma LinkedIsArranged(db: Database, e: Edge, sub: Query, ids: seq<int>, joined: seq<Joined>, row: Row)
    requires ValidDatabase(db) && Rel(e).ManyToMany? && HasId(sub.entity) && IsJoinResult(db, e, sub, ids, joined)
    requires IntAt(row, Id) in ids
    ensures Arranges(db, e, sub, LinkedRows(joined, IntAt(row, Id)), Neighbours(db, e, sub, row))
  {
    var mine, rows := LinkedRows(joined, IntAt(row, Id)), Neighbours(db, e, sub, row);
    LinkedOnce(db, e, sub, ids, joined, row);
    OnceSameMultiset(mine, rows);
    FirstRowsRanked(joined, sub.rank);
    PickRanked(FirstRows(joined), ByJoined(joined, IntAt(row, Id)), sub.rank);
    if KeepsOrder(db) {
      LinkedInOrder(db, e, sub, ids, joined, row);
    }
  }

  // ---- When the rows of one owner are in the order of its own query ----

  /** Two neighbours come first in the result against the order of the query for them. */
  ghost predicate AgainstQuery(rows: seq<Row>, joined: seq<Joined>) {
    exists g, h :: Before(rows, h, g) && Precedes(joined, g, h)
  }

  /** An owner's rows and its neighbours are the same rows, each once. */
  lemma LinkedOnce(db: Database, e: Edge, sub: Query, ids: seq<int>, joined: seq<Joined>, row: Row)
    requires ValidDatabase(db) && Rel(e).ManyToMany? && HasId(sub.entity) && IsJoinResult(db, e, sub, ids, joined)
    requires IntAt(row, Id) in ids
    ensures var mine, rows := LinkedRows(joined, IntAt(row, Id)), Neighbours(db, e, sub, row);
            Once(mine) && Once(rows) && forall r :: r in mine <==> r in rows
  {
    LinkedMembers(db, e, sub, ids, joined, row);
    JoinResultRows(db, e, sub, ids, joined);
    AnyJoinOrder(joined, IntAt(row, Id));
    FetchDistinct(db, sub, Everything);
    PickDistinct(Fetch(db, sub, Everything), ByLink(db.tables[AccountGroup], e, IntAt(row, Id)));
    DistinctIsOnce(LinkedRows(joined, IntAt(row, Id)));
    DistinctIsOnce(Neighbours(db, e, sub, row));
  }

  lemma LinkedBefore(db: Database, e: Edge, sub: Query, ids: seq<int>, joined: seq<Joined>, row: Row, g: Row, h: Row)
    requires ValidDatabase(db) && Rel(e).ManyToMany? && HasId(sub.entity) && IsJoinResult(db, e, sub, ids, joined)
    requires IntAt(row, Id) in ids && g != h
    requires g in Neighbours(db, e, sub, row) && h in Neighbours(db, e, sub, row)
    ensures Before(LinkedRows(joined, IntAt(row, Id)), g, h) <==> Precedes(joined, g, h)
  {
    LinkedMembers(db, e, sub, ids, joined, row);
    JoinResultRows(db, e, sub, ids, joined);
    AnyJoinOrder(joined, IntAt(row, Id));
    OrdersOfTwo(joined, IntAt(row, Id), g, h);
  }

  lemma BeforeMembers(rows: seq<Row>, g: Row, h: Row)
    requires Once(rows) && Before(rows, g, h)
    ensures g in rows && h in rows && g != h
  {
  }

  /** For a given result, an owner's rows are exactly its own neighbours, in the order of its own query, if and only if
      no two of the neighbours come first in the result against that order. */
  lemma LinkedOrderIff(db: Database, e: Edge, sub: Query, ids: seq<int>, joined: seq<Joined>, row: Row)
    requires ValidDatabase(db) && Rel(e).ManyToMany? && HasId(sub.entity) && IsJoinResult(db, e, sub, ids, joined)
    requires IntAt(row, Id) in ids
    ensures LinkedRows(joined, IntAt(row, Id)) == Neighbours(db, e, sub, row) <==>
            !AgainstQuery(Neighbours(db, e, sub, row), joined)
  {
    var mine, rows := LinkedRows(joined, IntAt(row, Id)), Neighbours(db, e, sub, row);
    LinkedOnce(db, e, sub, ids, joined, row);
    if mine == rows {
      forall g, h | Before(rows, h, g)
        ensures !Precedes(joined, g, h)
      {
        BeforeMembers(rows, h, g);
        LinkedBefore(db, e, sub, ids, joined, row, g, h);
        BeforeIsOneWay(rows, g, h);
      }
    } else if !AgainstQuery(rows, joined) {
      forall g, h | Before(mine, g, h)
        ensures Before(rows, g, h)
      {
        BeforeMembers(mine, g, h);
        LinkedBefore(db, e, sub, ids, joined, row, g, h);
        BeforeIsOneWay(rows, g, h);
      }
      SameOrder(mine, rows);
    }
  }

  // ---- The neighbours of all owners ----

  lemma JoinedIsNeighbour(db: Database, e: Edge, sub: Query, rows: seq<Row>, joined: seq<Joined>, r: Row)
    returns (i: nat)
    requires ValidDatabase(db) && Rel(e).ManyToMany? && HasId(sub.entity)
    requires IsJoinResult(db, e, sub, Ids(rows), joined) && r in FirstRows(joined)
    ensures i < |rows| && r in Neighbours(db, e, sub, rows[i])
  {
    JoinResultRows(db, e, sub, Ids(rows), joined);
    FirstRowsMembers(joined);
    var out :| Joined(out, r) in joined;
    i :| i < |rows| && Ids(rows)[i] == out;
    PickMembers(Fetch(db, sub, Everything), ByLink(db.tables[AccountGroup], e, out));
  }

  lemma NeighbourIsJoined(db: Database, e: Edge, sub: Query, rows: seq<Row>, joined: seq<Joined>, i: nat, r: Row)
    requires ValidDatabase(db) && Rel(e).ManyToMany? && HasId(sub.entity)
    requires IsJoinResult(db, e, sub, Ids(rows), joined) && i < |rows| && r in Neighbours(db, e, sub, rows[i])
    ensures r in FirstRows(joined)
  {
    assert Ids(rows)[i] == IntAt(rows[i], Id);
    LinkedMembers(db, e, sub, Ids(rows), joined, rows[i]);
    PickMembers(FirstRows(joined), ByJoined(joined, IntAt(rows[i], Id)));
  }

  lemma JoinedMembers(db: Database, e: Edge, sub: Query, rows: seq<Row>, joined: seq<Joined>)
    requires ValidDatabase(db) && Rel(e).ManyToMany? && HasId(sub.entity)
    requires IsJoinResult(db, e, sub, Ids(rows), joined)
    ensures AllNeighbours(db, e, sub, rows, FirstRows(joined))
  {
    forall r | r in FirstRows(joined)
      ensures exists i | 0 <= i < |rows| :: r in Neighbours(db, e, sub, rows[i])
    {
      var i := JoinedIsNeighbour(db, e, sub, rows, joined, r);
    }
    forall i, r | 0 <= i < |rows| && r in Neighbours(db, e, sub, rows[i])
      ensures r in FirstRows(joined)
    {
      NeighbourIsJoined(db, e, sub, rows, joined, i, r);
    }
  }

  /** The batched query fails if and only if the own query of some node does. */
  lemma JoinedFails(db: Database, e: Edge, sub: Query, rows: seq<Row>, joined: seq<Joined>)
    requires ValidDatabase(db) && Rel(e).ManyToMany? && HasId(sub.entity) && rows != []
    requires IsJoinResult(db, e, sub, Ids(rows), joined)
    ensures QueryFails(db, sub, sub.fields, FirstRows(joined)) <==> SomeEdgeFails(db, e, sub, rows)
  {
    JoinedMembers(db, e, sub, rows, joined);
    assert RunsQuery(e, rows[0]);
    BatchFails(db, e, sub, rows, FirstRows(joined));
  }
}
