/** What a loaded object may look like, given that a database returns the rows of a join in an order of its own. */
module NaiveTrees {
  import opened Wrappers
  import opened Schema
  import opened Relations
  import opened NaiveLoad

  /** The neighbours first appear in the rows of a join in the order in which the sub-query lists them. */
  ghost predicate KeepsOrder(db: Database) {
    forall joined: seq<Joined>, rank: Row -> int :: FirstRows(db.joinOrder(joined, rank)) == FirstRows(joined)
  }

  /** `arranged` are the neighbours behind an edge: over a many-to-many edge in any order that the ORDER BY of the
      sub-query allows, over any other edge exactly as that query returns them. */
  ghost predicate Arranges(db: Database, e: Edge, sub: Query, arranged: seq<Row>, rows: seq<Row>) {
    if Rel(e).ManyToMany? then
      multiset(arranged) == multiset(rows) && Ranked(arranged, sub.rank) && (KeepsOrder(db) ==> arranged == rows)
    else arranged == rows
  }

  /** A to-one edge without a neighbour is a nil pointer. */
  ghost predicate HasEdge(db: Database, e: Edge, sub: Query, row: Row)
    requires ValidDatabase(db)
  {
    Rel(e).ManyToOne? ==> Neighbours(db, e, sub, row) != []
  }

  /** `t` is the tree of the object for `row`, with the requested edges loaded for this row alone. */
  ghost predicate IsNaiveTree(db: Database, q: Query, fields: seq<Column>, row: Row, t: Tree)
    requires ValidDatabase(db)
    decreases q, 1
  {
    && t.entity == q.entity && t.loaded == q.with.Keys && t.fields == Decode(q.entity, fields, q.with.Keys, row)
    && (forall e :: e in t.edges <==> e in q.with && HasEdge(db, e, q.with[e], row))
    && (forall e | e in t.edges :: e in q.with && IsNaiveEdge(db, e, q.with[e], row, t.edges[e]))
  }

  ghost predicate AreNaiveTrees(db: Database, q: Query, fields: seq<Column>, rows: seq<Row>, ts: seq<Tree>)
    requires ValidDatabase(db)
    decreases q, 2
  {
    |ts| == |rows| && forall i | 0 <= i < |rows| :: IsNaiveTree(db, q, fields, rows[i], ts[i])
  }

  /** `ts` are the trees of the neighbours behind edge `e` of the single row `row`. */
  ghost predicate IsNaiveEdge(db: Database, e: Edge, sub: Query, row: Row, ts: seq<Tree>)
    requires ValidDatabase(db)
    decreases sub, 3
  {
    exists arranged ::
      && Arranges(db, e, sub, arranged, Neighbours(db, e, sub, row))
      && AreNaiveTrees(db, sub, SubFields(e, sub), arranged, ts)
  }

  /** What edge `e` of a node for `row` holds: nothing, or the trees of its neighbours. */
  ghost predicate IsNaiveResult(db: Database, e: Edge, sub: Query, row: Row, result: Option<seq<Tree>>)
    requires ValidDatabase(db)
  {
    && (result.Some? <==> HasEdge(db, e, sub, row))
    && (result.Some? ==> IsNaiveEdge(db, e, sub, row, result.value))
  }

  ghost predicate AreNaiveResults(db: Database, e: Edge, sub: Query, rows: seq<Row>, results: seq<Option<seq<Tree>>>)
    requires ValidDatabase(db)
  {
    |results| == |rows| && forall i | 0 <= i < |rows| :: IsNaiveResult(db, e, sub, rows[i], results[i])
  }

  // ---- Where the order is decided, there is one tree ----

  /** The ORDER BY of a sub-query tells any two rows of its table apart. */
  ghost predicate RanksApart(db: Database, sub: Query)
    requires ValidDatabase(db)
  {
    forall a, b | a in db.tables[sub.entity] && b in db.tables[sub.entity] && a != b :: sub.rank(a) != sub.rank(b)
  }

  /** Every many-to-many edge of the query tree has an order that the database cannot choose. */
  ghost predicate OrderDecided(db: Database, q: Query)
    requires ValidDatabase(db)
    decreases q
  {
    forall e | e in q.with ::
      (Rel(e).ManyToMany? ==> KeepsOrder(db) || RanksApart(db, q.with[e])) && OrderDecided(db, q.with[e])
  }

  /** The rank tells any two of these rows apart. */
  ghost predicate ApartByRank(rows: seq<Row>, rank: Row -> int) {
    forall x, y | x in rows && y in rows && x != y :: rank(x) != rank(y)
  }

  lemma {:induction false} RankedOnce(a: seq<Row>, b: seq<Row>, rank: Row -> int)
    requires multiset(a) == multiset(b) && Ranked(a, rank) && Ranked(b, rank) && ApartByRank(a, rank)
    ensures a == b
    decreases |a|
  {
    SameLength(a, b);
    if a != [] {
      var n := |a| - 1;
      LastInBoth(a, b, rank);
      SameFronts(a, b);
      FrontRanked(a, rank);
      FrontRanked(b, rank);
      RankedOnce(a[..n], b[..n], rank);
      assert a == a[..n] + [a[n]] && b == b[..n] + [b[n]];
    }
  }

  lemma SameLength(a: seq<Row>, b: seq<Row>)
    requires multiset(a) == multiset(b)
    ensures |a| == |b|
  {
    assert |multiset(a)| == |a| && |multiset(b)| == |b|;
  }

  lemma FrontRanked(a: seq<Row>, rank: Row -> int)
    requires a != [] && Ranked(a, rank)
    ensures Ranked(a[..|a| - 1], rank) && (ApartByRank(a, rank) ==> ApartByRank(a[..|a| - 1], rank))
  {
    assert forall i | 0 <= i < |a| - 1 :: a[..|a| - 1][i] == a[i];
  }

  lemma SameFronts(a: seq<Row>, b: seq<Row>)
    requires |a| == |b| > 0 && multiset(a) == multiset(b) && a[|a| - 1] == b[|b| - 1]
    ensures multiset(a[..|a| - 1]) == multiset(b[..|b| - 1])
  {
    assert a == a[..|a| - 1] + [a[|a| - 1]] && b == b[..|b| - 1] + [b[|b| - 1]];
    assert multiset(a[..|a| - 1]) == multiset(a) - multiset{a[|a| - 1]};
    assert multiset(b[..|b| - 1]) == multiset(b) - multiset{b[|b| - 1]};
  }

  lemma LastInBoth(a: seq<Row>, b: seq<Row>, rank: Row -> int)
    requires a != [] && |a| == |b| && multiset(a) == multiset(b) && Ranked(a, rank) && Ranked(b, rank)
    requires ApartByRank(a, rank)
    ensures a[|a| - 1] == b[|b| - 1]
  {
    var x, y := a[|a| - 1], b[|b| - 1];
    assert x in multiset(b) && y in multiset(a);
    var i :| 0 <= i < |b| && b[i] == x;
    var j :| 0 <= j < |a| && a[j] == y;
    assert rank(x) <= rank(y) && rank(y) <= rank(x);
  }

  lemma NeighboursInTable(db: Database, e: Edge, sub: Query, row: Row)
    requires ValidDatabase(db)
    ensures forall r | r in Neighbours(db, e, sub, row) :: r in db.tables[sub.entity] && ValidRow(sub.entity, r)
    ensures Rel(e).ManyToMany? ==> Ranked(Neighbours(db, e, sub, row), sub.rank)
  {
    match Rel(e)
    case ManyToOne => FetchMembers(db, sub, In(Id, [IntAt(row, Key(e))]));
    case OneToMany => FetchMembers(db, sub, In(Key(e), [IntAt(row, Id)]));
    case ManyToMany =>
      var s := ByLink(db.tables[AccountGroup], e, IntAt(row, Id));
      FetchMembers(db, sub, Everything);
      PickMembers(Fetch(db, sub, Everything), s);
      OrderByRanks(Keep(db.tables[sub.entity], sub.where, Everything), sub.rank);
      PickRanked(Fetch(db, sub, Everything), s, sub.rank);
  }

  lemma {:induction false} PickRanked(rows: seq<Row>, s: Selector, rank: Row -> int)
    requires Ranked(rows, rank)
    ensures Ranked(PickRows(rows, s), rank)
  {
    if rows != [] {
      var n := |rows| - 1;
      var front := rows[..n];
      PickRanked(front, s, rank);
      PickMembers(front, s);
      assert rows == front + [rows[n]];
      PickRowsSnoc(front, rows[n], s);
      forall r | r in PickRows(front, s)
        ensures rank(r) <= rank(rows[n])
      {
        var i :| 0 <= i < n && front[i] == r;
        assert rows[i] == r;
      }
    }
  }

  /** With the order decided, only one arrangement is left. */
  lemma ArrangedOnce(db: Database, e: Edge, sub: Query, row: Row, arranged: seq<Row>)
    requires ValidDatabase(db) && Arranges(db, e, sub, arranged, Neighbours(db, e, sub, row))
    requires Rel(e).ManyToMany? ==> KeepsOrder(db) || RanksApart(db, sub)
    ensures arranged == Neighbours(db, e, sub, row)
  {
    var rows := Neighbours(db, e, sub, row);
    if Rel(e).ManyToMany? && RanksApart(db, sub) {
      NeighboursInTable(db, e, sub, row);
      RankedOnce(rows, arranged, sub.rank);
    }
  }

  lemma ReferenceEdge(db: Database, q: Query, row: Row, e: Edge)
    requires ValidDatabase(db)
    ensures e in NaiveEdgeMap(db, q, row) <==> e in q.with && HasEdge(db, e, q.with[e], row)
    ensures e in NaiveEdgeMap(db, q, row) ==>
              NaiveEdgeMap(db, q, row)[e] ==
              NaiveList(db, q.with[e], SubFields(e, q.with[e]), Neighbours(db, e, q.with[e], row))
  {
  }

  /** With the order decided, a loaded object has exactly the tree of the reference. */
  lemma {:induction false} OneNaiveTree(db: Database, q: Query, fields: seq<Column>, row: Row, t: Tree)
    requires ValidDatabase(db) && OrderDecided(db, q) && IsNaiveTree(db, q, fields, row, t)
    ensures t == NaiveNode(db, q, fields, row)
    decreases q
  {
    var naive := NaiveEdgeMap(db, q, row);
    forall e
      ensures e in t.edges <==> e in naive
      ensures e in t.edges ==> t.edges[e] == naive[e]
    {
      ReferenceEdge(db, q, row, e);
      if e in t.edges {
        OneNaiveEdge(db, q, e, row, t.edges[e]);
      }
    }
    assert t.edges == naive;
  }

  lemma {:induction false} OneNaiveEdge(db: Database, q: Query, e: Edge, row: Row, ts: seq<Tree>)
    requires ValidDatabase(db) && OrderDecided(db, q) && e in q.with && IsNaiveEdge(db, e, q.with[e], row, ts)
    ensures ts == NaiveList(db, q.with[e], SubFields(e, q.with[e]), Neighbours(db, e, q.with[e], row))
    decreases q, 0
  {
    var sub := q.with[e];
    var arranged :| Arranges(db, e, sub, arranged, Neighbours(db, e, sub, row)) &&
                    AreNaiveTrees(db, sub, SubFields(e, sub), arranged, ts);
    ArrangedOnce(db, e, sub, row, arranged);
    forall i | 0 <= i < |arranged|
      ensures ts[i] == NaiveNode(db, sub, SubFields(e, sub), arranged[i])
    {
      OneNaiveTree(db, sub, SubFields(e, sub), arranged[i], ts[i]);
    }
  }

  lemma OneNaiveList(db: Database, q: Query, fields: seq<Column>, rows: seq<Row>, ts: seq<Tree>)
    requires ValidDatabase(db) && OrderDecided(db, q) && AreNaiveTrees(db, q, fields, rows, ts)
    ensures ts == NaiveList(db, q, fields, rows)
  {
    forall i | 0 <= i < |rows|
      ensures ts[i] == NaiveNode(db, q, fields, rows[i])
    {
      OneNaiveTree(db, q, fields, rows[i], ts[i]);
    }
  }

  /** The tree of the reference is one of those that an object may have. */
  lemma {:induction false} NaiveNodeIsNaive(db: Database, q: Query, fields: seq<Column>, row: Row)
    requires ValidDatabase(db)
    ensures IsNaiveTree(db, q, fields, row, NaiveNode(db, q, fields, row))
    decreases q
  {
    forall e | e in q.with && NaiveEdge(db, e, q.with[e], row).Some?
      ensures IsNaiveEdge(db, e, q.with[e], row, NaiveEdge(db, e, q.with[e], row).value)
    {
      var sub, rows := q.with[e], Neighbours(db, e, q.with[e], row);
      NeighboursInTable(db, e, sub, row);
      forall i | 0 <= i < |rows|
        ensures IsNaiveTree(db, sub, SubFields(e, sub), rows[i], NaiveNode(db, sub, SubFields(e, sub), rows[i]))
      {
        NaiveNodeIsNaive(db, sub, SubFields(e, sub), rows[i]);
      }
      assert AreNaiveTrees(db, sub, SubFields(e, sub), rows, NaiveEdge(db, e, sub, row).value);
    }
  }
}
