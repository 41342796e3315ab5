/** How the to-many loaders divide a batched result among the nodes. */
module ToManyLaws {
  import opened Wrappers
  import opened Schema
  import opened Relations
  import opened NaiveLoad
  import opened NaiveTrees
  import opened EdgeResults

  // ---- One-to-many as a partition ----

  function TotalLength(batch: seq<Row>, key: Column, ids: seq<int>): nat {
    if ids == [] then 0
    else TotalLength(batch, key, ids[..|ids| - 1]) + |PickRows(batch, ByKey(key, ids[|ids| - 1]))|
  }

  function Occurrences(ids: seq<int>, id: int): nat {
    if ids == [] then 0
    else Occurrences(ids[..|ids| - 1], id) + if ids[|ids| - 1] == id then 1 else 0
  }

  lemma {:induction false} TotalLengthSnoc(batch: seq<Row>, r: Row, key: Column, ids: seq<int>)
    requires IsInt(r, key)
    ensures TotalLength(batch + [r], key, ids) == TotalLength(batch, key, ids) + Occurrences(ids, IntAt(r, key))
  {
    if ids != [] {
      var n := |ids| - 1;
      TotalLengthSnoc(batch, r, key, ids[..n]);
      PickRowsSnoc(batch, r, ByKey(key, ids[n]));
    }
  }

  lemma {:induction false} OccursOnce(ids: seq<int>, id: int)
    requires forall i, j | 0 <= i < j < |ids| :: ids[i] != ids[j]
    ensures Occurrences(ids, id) == if id in ids then 1 else 0
  {
    if ids != [] {
      var n := |ids| - 1;
      OccursOnce(ids[..n], id);
      assert ids == ids[..n] + [ids[n]];
    }
  }

  lemma {:induction false} TotalLengthIs(batch: seq<Row>, key: Column, ids: seq<int>)
    requires forall i, j | 0 <= i < j < |ids| :: ids[i] != ids[j]
    requires forall r | r in batch :: IsInt(r, key) && IntAt(r, key) in ids
    ensures TotalLength(batch, key, ids) == |batch|
  {
    if batch == [] {
      NothingToCount(key, ids);
    } else {
      var n := |batch| - 1;
      assert batch == batch[..n] + [batch[n]];
      TotalLengthIs(batch[..n], key, ids);
      TotalLengthSnoc(batch[..n], batch[n], key, ids);
      OccursOnce(ids, IntAt(batch[n], key));
    }
  }

  lemma {:induction false} NothingToCount(key: Column, ids: seq<int>)
    ensures TotalLength([], key, ids) == 0
  {
    if ids != [] {
      NothingToCount(key, ids[..|ids| - 1]);
      assert PickRows([], ByKey(key, ids[|ids| - 1])) == [];
    }
  }

  /** The lists of a one-to-many load partition the batched result: each node's list is the slice of its rows, in
      order, the slices add up to the whole result, and no list changes if others are loaded along with it. */
  lemma ManyIsPartition(db: Database, e: Edge, sub: Query, rows: seq<Row>)
    requires ValidDatabase(db) && Rel(e).OneToMany? && DistinctIds(rows)
    ensures var batch := Fetch(db, sub, In(Key(e), Ids(rows)));
            && TotalLength(batch, Key(e), Ids(rows)) == |batch|
            && forall i | 0 <= i < |rows| ::
                 Neighbours(db, e, sub, rows[i]) == PickRows(batch, ByKey(Key(e), Ids(rows)[i]))
  {
    var batch := Fetch(db, sub, In(Key(e), Ids(rows)));
    FetchMembers(db, sub, In(Key(e), Ids(rows)));
    forall r | r in batch
      ensures IsInt(r, Key(e)) && IntAt(r, Key(e)) in Ids(rows)
    {
      assert Passes(In(Key(e), Ids(rows)), r);
    }
    TotalLengthIs(batch, Key(e), Ids(rows));
    forall i | 0 <= i < |rows|
      ensures Neighbours(db, e, sub, rows[i]) == PickRows(batch, ByKey(Key(e), Ids(rows)[i]))
    {
      assert Ids(rows)[i] == IntAt(rows[i], Id);
      BatchedSlice(db, sub, Key(e), Ids(rows), IntAt(rows[i], Id));
    }
  }

  // ---- Nodes with one id ----

  lemma EmptyIsNaive(db: Database, e: Edge, sub: Query, row: Row)
    requires ValidDatabase(db) && !Rel(e).ManyToOne?
    ensures IsNaiveResult(db, e, sub, row, Some([])) <==> Neighbours(db, e, sub, row) == []
  {
    var rows := Neighbours(db, e, sub, row);
    if rows == [] {
      assert Arranges(db, e, sub, [], rows) && AreNaiveTrees(db, sub, SubFields(e, sub), [], []);
    }
    if IsNaiveEdge(db, e, sub, row, []) {
      var arranged :| Arranges(db, e, sub, arranged, rows) && AreNaiveTrees(db, sub, SubFields(e, sub), arranged, []);
      assert |multiset(rows)| == |multiset(arranged)| == 0;
    }
  }

  /** For a list of nodes in which ids repeat, a to-many load gives every node a naive list exactly if no node
      that has a later namesake has neighbours at all. */
  lemma RepeatedIds(db: Database, e: Edge, sub: Query, rows: seq<Row>, results: seq<Option<seq<Tree>>>)
    requires ValidDatabase(db) && !Rel(e).ManyToOne? && AreToManyResults(db, e, sub, rows, results)
    ensures AreNaiveResults(db, e, sub, rows, results) <==>
            forall i | 0 <= i < |rows| && !LastWithId(rows, i) :: Neighbours(db, e, sub, rows[i]) == []
  {
    forall i | 0 <= i < |rows|
      ensures IsNaiveResult(db, e, sub, rows[i], results[i]) <==>
              LastWithId(rows, i) || Neighbours(db, e, sub, rows[i]) == []
    {
      assert IsToManyResult(db, e, sub, rows, i, results[i]);
      EmptyIsNaive(db, e, sub, rows[i]);
    }
  }
}
