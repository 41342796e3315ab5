/** Selecting fields does not change what eager loading loads. */
module Projection {
  import opened Schema
  import opened Relations
  import opened NaiveLoad
  import opened NaiveTrees
  import opened Nodes

  /** The query tree with every field selection dropped. */
  ghost function Unprojected(q: Query): Query
    decreases q
  {
    q.(fields := [], with := map e | e in q.with :: Unprojected(q.with[e]))
  }

  /** Every level selects existing columns only. */
  ghost predicate SelectsValid(q: Query, fields: seq<Column>)
    decreases q
  {
    ValidFields(q.entity, fields) && forall e | e in q.with :: SelectsValid(q.with[e], SubFields(e, q.with[e]))
  }

  /** The tree with the fields blanked that are not requested, at every level, and nothing else changed. */
  ghost function Blanked(q: Query, fields: seq<Column>, full: Tree): Tree
    decreases q, 0
  {
    full.(fields := map c | c in full.fields && Requested(q.entity, fields, q.with.Keys, c) :: full.fields[c],
          edges := map e | e in full.edges ::
            if e in q.with then AllBlanked(q.with[e], SubFields(e, q.with[e]), full.edges[e]) else full.edges[e])
  }

  ghost function AllBlanked(q: Query, fields: seq<Column>, fulls: seq<Tree>): (ts: seq<Tree>)
    ensures |ts| == |fulls|
    decreases q, 1
  {
    seq(|fulls|, i requires 0 <= i < |fulls| => Blanked(q, fields, fulls[i]))
  }

  /** The query behind an edge runs with and without a selection on the same conditions and in the same order. */
  lemma UnprojectedEdge(db: Database, e: Edge, sub: Query, row: Row)
    requires ValidDatabase(db)
    ensures Neighbours(db, e, Unprojected(sub), row) == Neighbours(db, e, sub, row)
    ensures SubFields(e, Unprojected(sub)) == []
    ensures HasEdge(db, e, Unprojected(sub), row) <==> HasEdge(db, e, sub, row)
    ensures forall arranged, rows :: Arranges(db, e, Unprojected(sub), arranged, rows) <==>
                                     Arranges(db, e, sub, arranged, rows)
  {
  }

  lemma DecodeBlanked(q: Query, fields: seq<Column>, row: Row)
    requires WellTyped(q) && ValidFields(q.entity, fields)
    ensures var full := Decode(q.entity, [], q.with.Keys, row);
            Decode(q.entity, fields, q.with.Keys, row) ==
            map c | c in full && Requested(q.entity, fields, q.with.Keys, c) :: full[c]
  {
    forall c | Requested(q.entity, fields, q.with.Keys, c)
      ensures Requested(q.entity, [], q.with.Keys, c)
    {
      RequestedIsValid(q, fields, c);
    }
  }

  // ---- Blanking what was loaded without a selection ----

  lemma {:induction false} BlankedIsNaive(db: Database, q: Query, fields: seq<Column>, row: Row, full: Tree)
    requires ValidDatabase(db) && WellTyped(q) && SelectsValid(q, fields)
    requires IsNaiveTree(db, Unprojected(q), [], row, full)
    ensures IsNaiveTree(db, q, fields, row, Blanked(q, fields, full))
    decreases q, 1
  {
    DecodeBlanked(q, fields, row);
    assert Unprojected(q).with.Keys == q.with.Keys;
    var t := Blanked(q, fields, full);
    forall e
      ensures e in t.edges <==> e in q.with && HasEdge(db, e, q.with[e], row)
      ensures e in t.edges ==> IsNaiveEdge(db, e, q.with[e], row, t.edges[e])
    {
      if e in q.with {
        UnprojectedEdge(db, e, q.with[e], row);
      }
      if e in full.edges {
        BlankedEdgeIsNaive(db, q, e, row, full.edges[e]);
      }
    }
  }

  lemma {:induction false} BlankedEdgeIsNaive(db: Database, q: Query, e: Edge, row: Row, fulls: seq<Tree>)
    requires ValidDatabase(db) && WellTyped(q) && e in q.with && SelectsValid(q.with[e], SubFields(e, q.with[e]))
    requires IsNaiveEdge(db, e, Unprojected(q.with[e]), row, fulls)
    ensures IsNaiveEdge(db, e, q.with[e], row, AllBlanked(q.with[e], SubFields(e, q.with[e]), fulls))
    decreases q, 0
  {
    var sub := q.with[e];
    UnprojectedEdge(db, e, sub, row);
    var arranged :| Arranges(db, e, Unprojected(sub), arranged, Neighbours(db, e, sub, row)) &&
                    AreNaiveTrees(db, Unprojected(sub), [], arranged, fulls);
    forall i | 0 <= i < |arranged|
      ensures IsNaiveTree(db, sub, SubFields(e, sub), arranged[i], Blanked(sub, SubFields(e, sub), fulls[i]))
    {
      BlankedIsNaive(db, sub, SubFields(e, sub), arranged[i], fulls[i]);
    }
    assert AreNaiveTrees(db, sub, SubFields(e, sub), arranged, AllBlanked(sub, SubFields(e, sub), fulls));
  }

  // ---- Filling in what a selection left out ----

  /** `full` is what loading without a selection may have yielded where loading with it yielded `t`. */
  ghost predicate Fills(db: Database, q: Query, fields: seq<Column>, row: Row, t: Tree, full: Tree)
    requires ValidDatabase(db)
  {
    IsNaiveTree(db, Unprojected(q), [], row, full) && t == Blanked(q, fields, full)
  }

  ghost predicate Filled(db: Database, q: Query, fields: seq<Column>, row: Row, t: Tree)
    requires ValidDatabase(db)
  {
    exists full :: Fills(db, q, fields, row, t, full)
  }

  ghost function Fill(db: Database, q: Query, fields: seq<Column>, row: Row, t: Tree): (full: Tree)
    requires ValidDatabase(db) && Filled(db, q, fields, row, t)
    ensures Fills(db, q, fields, row, t, full)
  {
    var full :| Fills(db, q, fields, row, t, full);
    full
  }

  ghost predicate FillsEdge(db: Database, e: Edge, sub: Query, row: Row, ts: seq<Tree>, fulls: seq<Tree>)
    requires ValidDatabase(db)
  {
    IsNaiveEdge(db, e, Unprojected(sub), row, fulls) && ts == AllBlanked(sub, SubFields(e, sub), fulls)
  }

  ghost predicate FilledEdge(db: Database, e: Edge, sub: Query, row: Row, ts: seq<Tree>)
    requires ValidDatabase(db)
  {
    exists fulls :: FillsEdge(db, e, sub, row, ts, fulls)
  }

  ghost function FillEdge(db: Database, e: Edge, sub: Query, row: Row, ts: seq<Tree>): (fulls: seq<Tree>)
    requires ValidDatabase(db) && FilledEdge(db, e, sub, row, ts)
    ensures FillsEdge(db, e, sub, row, ts, fulls)
  {
    var fulls :| FillsEdge(db, e, sub, row, ts, fulls);
    fulls
  }

  lemma {:induction false} NaiveIsFilled(db: Database, q: Query, fields: seq<Column>, row: Row, t: Tree)
    requires ValidDatabase(db) && WellTyped(q) && SelectsValid(q, fields) && IsNaiveTree(db, q, fields, row, t)
    ensures Filled(db, q, fields, row, t)
    decreases q, 1
  {
    forall e | e in t.edges
      ensures e in q.with && FilledEdge(db, e, q.with[e], row, t.edges[e])
    {
      NaiveEdgeIsFilled(db, q, e, row, t.edges[e]);
    }
    var edges := map e | e in t.edges :: FillEdge(db, e, q.with[e], row, t.edges[e]);
    var full := Tree(t.entity, Decode(q.entity, [], q.with.Keys, row), t.loaded, edges);
    FullIsNaive(db, q, row, t, full);
    FullIsBlanked(q, fields, row, t, full);
    assert Fills(db, q, fields, row, t, full);
  }

  lemma FullIsBlanked(q: Query, fields: seq<Column>, row: Row, t: Tree, full: Tree)
    requires WellTyped(q) && ValidFields(q.entity, fields)
    requires t.entity == full.entity && t.loaded == full.loaded && full.edges.Keys == t.edges.Keys
    requires full.fields == Decode(q.entity, [], q.with.Keys, row)
    requires t.fields == Decode(q.entity, fields, q.with.Keys, row)
    requires forall e | e in t.edges ::
      e in q.with && t.edges[e] == AllBlanked(q.with[e], SubFields(e, q.with[e]), full.edges[e])
    ensures t == Blanked(q, fields, full)
  {
    DecodeBlanked(q, fields, row);
    assert Blanked(q, fields, full).edges == t.edges;
  }

  lemma FullIsNaive(db: Database, q: Query, row: Row, t: Tree, full: Tree)
    requires ValidDatabase(db)
    requires t.entity == full.entity == q.entity && t.loaded == full.loaded == q.with.Keys
    requires full.fields == Decode(q.entity, [], q.with.Keys, row) && full.edges.Keys == t.edges.Keys
    requires forall e :: e in t.edges <==> e in q.with && HasEdge(db, e, q.with[e], row)
    requires forall e | e in full.edges :: IsNaiveEdge(db, e, Unprojected(q.with[e]), row, full.edges[e])
    ensures IsNaiveTree(db, Unprojected(q), [], row, full)
  {
    assert Unprojected(q).with.Keys == q.with.Keys;
    forall e | e in q.with
      ensures HasEdge(db, e, Unprojected(q.with[e]), row) <==> HasEdge(db, e, q.with[e], row)
    {
      UnprojectedEdge(db, e, q.with[e], row);
    }
  }

  lemma {:induction false} NaiveEdgeIsFilled(db: Database, q: Query, e: Edge, row: Row, ts: seq<Tree>)
    requires ValidDatabase(db) && WellTyped(q) && e in q.with && SelectsValid(q.with[e], SubFields(e, q.with[e]))
    requires IsNaiveEdge(db, e, q.with[e], row, ts)
    ensures FilledEdge(db, e, q.with[e], row, ts)
    decreases q, 0
  {
    var sub, fields := q.with[e], SubFields(e, q.with[e]);
    UnprojectedEdge(db, e, sub, row);
    var arranged :| Arranges(db, e, sub, arranged, Neighbours(db, e, sub, row)) &&
                    AreNaiveTrees(db, sub, fields, arranged, ts);
    forall i | 0 <= i < |arranged|
      ensures Filled(db, sub, fields, arranged[i], ts[i])
    {
      NaiveIsFilled(db, sub, fields, arranged[i], ts[i]);
    }
    var fulls := seq(|ts|, i requires 0 <= i < |ts| => Fill(db, sub, fields, arranged[i], ts[i]));
    assert AreNaiveTrees(db, Unprojected(sub), [], arranged, fulls);
    assert ts == AllBlanked(sub, fields, fulls);
    assert FillsEdge(db, e, sub, row, ts, fulls);
  }

  /** Selecting fields at any level of a query tree blanks fields and changes nothing else: what may be loaded with
      the selection is exactly what may be loaded without any, with the unrequested fields blanked. Every edge holds
      the same entities in the same order. */
  lemma ProjectionKeepsEdges(db: Database, q: Query, fields: seq<Column>, row: Row, t: Tree)
    requires ValidDatabase(db) && WellTyped(q) && SelectsValid(q, fields)
    ensures IsNaiveTree(db, q, fields, row, t) <==> exists full :: Fills(db, q, fields, row, t, full)
  {
    if IsNaiveTree(db, q, fields, row, t) {
      NaiveIsFilled(db, q, fields, row, t);
    }
    if full :| Fills(db, q, fields, row, t, full) {
      BlankedIsNaive(db, q, fields, row, full);
    }
  }
}
