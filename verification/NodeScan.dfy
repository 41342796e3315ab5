/** The scan loops: one object for every row of a query, and for every node of a many-to-many join. */
module NodeScan {
  import opened Wrappers
  import opened Schema
  import opened RowCodec
  import opened Relations
  import opened NaiveLoad
  import opened Nodes

  method ScanNodes(q: Query, fields: seq<Column>, rows: seq<Row>) returns (nodes: seq<Node>, err: Option<LoadError>)
    requires WellTyped(q) && ValidFields(q.entity, fields)
    requires forall r | r in rows :: ValidRow(q.entity, r)
    ensures err.None? && Apart(nodes) && fresh(nodes)
    ensures AllScanned(nodes, q, fields, rows)
  {
    var columns := QuerySpec(q, fields);
    nodes := [];
    for i := 0 to |rows|
      invariant |nodes| == i && Apart(nodes)
      invariant forall k | 0 <= k < i :: fresh(nodes[k]) && Scanned(nodes[k], q, fields, rows[k])
    {
      var cells := ScanValues(columns);
      var values := FillCells(cells, columns, rows[i]);
      assert values == ScanRow(columns, rows[i]);
      var node;
      node, err := NewNode(q, fields, columns, values, rows[i]);
      if err.Some? {
        return;
      }
      nodes := nodes + [node];
    }
    err := None;
  }

  /** The owners that a joined result links to the target with this id. */
  ghost function Owners(joined: seq<Joined>, byID: map<int, Node>, id: int): set<Node> {
    set j | j in joined && IntAt(j.row, Id) == id && j.out in byID :: byID[j.out]
  }

  /** `nids` holds the owners of every id in the joined result. */
  ghost predicate CollectsOwners(joined: seq<Joined>, byID: map<int, Node>, nids: map<int, set<Node>>) {
    && (forall id :: id in nids <==> HasRowWithId(FirstRows(joined), id))
    && (forall id | id in nids :: nids[id] == Owners(joined, byID, id))
  }

  lemma CollectStep(joined: seq<Joined>, j: Joined, byID: map<int, Node>, nids: map<int, set<Node>>)
    requires CollectsOwners(joined, byID, nids) && j.out in byID
    ensures var id := IntAt(j.row, Id);
            CollectsOwners(joined + [j], byID, nids[id := (if id in nids then nids[id] else {}) + {byID[j.out]}])
  {
    var id := IntAt(j.row, Id);
    OwnersStep(joined, j, byID);
    FirstRowsSnoc(joined, j);
    if id !in nids {
      FirstRowsCover(joined);
      assert Owners(joined, byID, id) == {};
    }
  }

  /** The wrapped `ScanValues`: a cell for the owner's id in front of those for the entity's columns. */
  method ScanJoinedRow(columns: seq<Column>, j: Joined) returns (values: seq<Cell>)
    ensures values == [NullInt(true, j.out)] + ScanRow(columns, j.row)
  {
    var cells := ScanValues(columns);
    values := [Scan(NullInt(false, 0), IntV(j.out))] + FillCells(cells, columns, j.row);
    assert FillCells(cells, columns, j.row) == ScanRow(columns, j.row);
  }

  /** The wrapped `Assign` of a many-to-many load: an object is created for the first row of each id
      only, while every row adds its owner to `nids`. */
  method AssignJoined(q: Query, ghost fields: seq<Column>, columns: seq<Column>, values: seq<Cell>,
                      byID: map<int, Node>, nids: map<int, set<Node>>, ghost joined: seq<Joined>, ghost j: Joined)
    returns (after: map<int, set<Node>>, created: Option<Node>, err: Option<LoadError>)
    requires WellTyped(q) && HasId(q.entity) && ValidFields(q.entity, fields) && ValidRow(q.entity, j.row)
    requires AreRequested(columns, q, fields)
    requires |columns| > 0 && columns[0] == Id
    requires values == [NullInt(true, j.out)] + ScanRow(columns, j.row)
    requires CollectsOwners(joined, byID, nids) && j.out in byID
    ensures err.None? && CollectsOwners(joined + [j], byID, after)
    ensures created.None? <==> HasRowWithId(FirstRows(joined), IntAt(j.row, Id))
    ensures created.Some? ==> fresh(created.value) && Scanned(created.value, q, fields, j.row)
  {
    JoinedId(q, columns, j);
    CollectStep(joined, j, byID, nids);
    var outValue, inValue := values[0].i, values[1].i;
    if inValue !in nids {
      after := nids[inValue := {} + {byID[outValue]}];
      assert values[1..] == ScanRow(columns, j.row);
      var node;
      node, err := NewNode(q, fields, columns, values[1..], j.row);
      created := Some(node);
    } else {
      after := nids[inValue := nids[inValue] + {byID[outValue]}];
      created, err := None, None;
    }
  }

  /** One row of the joined result, scanned and assigned. */
  method ScanOneJoined(q: Query, ghost fields: seq<Column>, columns: seq<Column>, byID: map<int, Node>,
                       nids: map<int, set<Node>>, ghost joined: seq<Joined>, j: Joined)
    returns (after: map<int, set<Node>>, created: Option<Node>, err: Option<LoadError>)
    requires WellTyped(q) && HasId(q.entity) && ValidFields(q.entity, fields) && ValidRow(q.entity, j.row)
    requires AreRequested(columns, q, fields)
    requires |columns| > 0 && columns[0] == Id
    requires CollectsOwners(joined, byID, nids) && j.out in byID
    ensures err.None? && CollectsOwners(joined + [j], byID, after)
    ensures created.None? <==> HasRowWithId(FirstRows(joined), IntAt(j.row, Id))
    ensures created.Some? ==> fresh(created.value) && Scanned(created.value, q, fields, j.row)
  {
    var values := ScanJoinedRow(columns, j);
    after, created, err := AssignJoined(q, fields, columns, values, byID, nids, joined, j);
  }

  lemma OneMoreScanned(nodes: seq<Node>, created: Option<Node>, q: Query, fields: seq<Column>, joined: seq<Joined>,
                       j: Joined)
    requires AllScanned(nodes, q, fields, FirstRows(joined))
    requires created.None? <==> HasRowWithId(FirstRows(joined), IntAt(j.row, Id))
    requires created.Some? ==> Scanned(created.value, q, fields, j.row)
    ensures AllScanned(if created.Some? then nodes + [created.value] else nodes, q, fields, FirstRows(joined + [j]))
  {
    FirstRowsSnoc(joined, j);
  }

  method ScanJoined(q: Query, fields: seq<Column>, joined: seq<Joined>, byID: map<int, Node>)
    returns (nodes: seq<Node>, nids: map<int, set<Node>>, err: Option<LoadError>)
    requires WellTyped(q) && HasId(q.entity) && ValidFields(q.entity, fields)
    requires forall j | j in joined :: ValidRow(q.entity, j.row) && j.out in byID
    ensures err.None? && Apart(nodes) && fresh(nodes)
    ensures AllScanned(nodes, q, fields, FirstRows(joined))
    ensures CollectsOwners(joined, byID, nids)
  {
    var columns := QuerySpec(q, fields);
    nodes, nids := [], map[];
    for i := 0 to |joined|
      invariant Apart(nodes) && forall k | 0 <= k < |nodes| :: fresh(nodes[k])
      invariant AllScanned(nodes, q, fields, FirstRows(joined[..i]))
      invariant CollectsOwners(joined[..i], byID, nids)
    {
      assert joined[..i + 1] == joined[..i] + [joined[i]];
      var created;
      nids, created, err := ScanOneJoined(q, fields, columns, byID, nids, joined[..i], joined[i]);
      if err.Some? {
        return;
      }
      OneMoreScanned(nodes, created, q, fields, joined[..i], joined[i]);
      if created.Some? {
        nodes := nodes + [created.value];
      }
    }
    err := None;
    assert joined[..|joined|] == joined;
  }

  /** The id is scanned into the first cell after the join column. */
  lemma JoinedId(q: Query, columns: seq<Column>, j: Joined)
    requires HasId(q.entity) && ValidRow(q.entity, j.row) && |columns| > 0 && columns[0] == Id
    ensures ScanRow(columns, j.row)[0] == NullInt(true, IntAt(j.row, Id))
  {
    IdIsValid(q.entity);
  }

  lemma OwnersStep(joined: seq<Joined>, j: Joined, byID: map<int, Node>)
    requires j.out in byID
    ensures forall id :: Owners(joined + [j], byID, id) ==
                         Owners(joined, byID, id) + if IntAt(j.row, Id) == id then {byID[j.out]} else {}
  {
    forall id
      ensures Owners(joined + [j], byID, id) ==
              Owners(joined, byID, id) + if IntAt(j.row, Id) == id then {byID[j.out]} else {}
    {
      var all := joined + [j];
      assert all[|joined|] == j;
      forall n | n in Owners(joined, byID, id)
        ensures n in Owners(all, byID, id)
      {
        var k :| k in joined && IntAt(k.row, Id) == id && k.out in byID && byID[k.out] == n;
        assert k in all;
      }
    }
  }
}
