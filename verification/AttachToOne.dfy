/** The loops of the many-to-one loader, which collects foreign keys and points nodes at their neighbour. */
module AttachToOne {
  import opened Schema
  import opened Relations
  import opened Nodes
  import opened EdgeResults

  /** `ids` are the non-nil foreign keys, each once. */
  ghost predicate KeysOnce(key: Column, rows: seq<Row>, ids: seq<int>) {
    && (forall i, j | 0 <= i < j < |ids| :: ids[i] != ids[j])
    && (forall r | r in rows :: IsInt(r, key) ==> IntAt(r, key) in ids)
    && (forall id | id in ids :: HasKey(key, rows, id))
  }

  ghost predicate HasKey(key: Column, rows: seq<Row>, id: int) {
    exists r | r in rows :: Holds(r, key, id)
  }

  /** `nodeids` maps each of the keys to its nodes, in order. */
  ghost predicate GroupedByKey(key: Column, nodes: seq<Node>, rows: seq<Row>, ids: seq<int>,
                               nodeids: map<int, seq<Node>>)
    requires |nodes| == |rows|
  {
    && (forall id :: id in ids <==> id in nodeids)
    && (forall id | id in nodeids :: nodeids[id] == Pick(nodes, rows, ByKey(key, id)))
  }

  lemma HasKeySnoc(key: Column, rows: seq<Row>, r: Row, id: int)
    ensures HasKey(key, rows + [r], id) <==> HasKey(key, rows, id) || Holds(r, key, id)
  {
    assert forall k :: k in rows + [r] <==> k in rows || k == r;
  }

  lemma KeysStep(key: Column, rows: seq<Row>, r: Row, ids: seq<int>)
    requires KeysOnce(key, rows, ids)
    ensures KeysOnce(key, rows + [r], if !IsInt(r, key) || IntAt(r, key) in ids then ids else ids + [IntAt(r, key)])
  {
    var after := if !IsInt(r, key) || IntAt(r, key) in ids then ids else ids + [IntAt(r, key)];
    forall id | id in after
      ensures HasKey(key, rows + [r], id)
    {
      HasKeySnoc(key, rows, r, id);
    }
    forall k | k in rows + [r] && IsInt(k, key)
      ensures IntAt(k, key) in after
    {
      if k in rows {
        assert IntAt(k, key) in ids;
      } else {
        assert k == r;
      }
    }
  }

  lemma GroupStep(key: Column, nodes: seq<Node>, rows: seq<Row>, i: nat, ids: seq<int>,
                  nodeids: map<int, seq<Node>>, fk: int)
    requires i < |nodes| == |rows|
    requires KeysOnce(key, rows[..i], ids) && GroupedByKey(key, nodes[..i], rows[..i], ids, nodeids)
    requires IsInt(rows[i], key) && IntAt(rows[i], key) == fk
    ensures GroupedByKey(key, nodes[..i + 1], rows[..i + 1], if fk in nodeids then ids else ids + [fk],
                         nodeids[fk := (if fk in nodeids then nodeids[fk] else []) + [nodes[i]]])
  {
    var after := nodeids[fk := (if fk in nodeids then nodeids[fk] else []) + [nodes[i]]];
    if fk !in nodeids {
      forall r | r in rows[..i]
        ensures !Holds(r, key, fk)
      {
        assert Holds(r, key, fk) ==> IsInt(r, key) && IntAt(r, key) == fk;
      }
      PickNothing(nodes[..i], rows[..i], key, fk);
    }
    forall id | id in after
      ensures after[id] == Pick(nodes[..i + 1], rows[..i + 1], ByKey(key, id))
    {
      PickSnoc(nodes, rows, i, ByKey(key, id));
    }
  }

  lemma GroupSkip(key: Column, nodes: seq<Node>, rows: seq<Row>, i: nat, ids: seq<int>, nodeids: map<int, seq<Node>>)
    requires i < |nodes| == |rows| && GroupedByKey(key, nodes[..i], rows[..i], ids, nodeids)
    requires !IsInt(rows[i], key)
    ensures GroupedByKey(key, nodes[..i + 1], rows[..i + 1], ids, nodeids)
  {
    forall id | id in nodeids
      ensures nodeids[id] == Pick(nodes[..i + 1], rows[..i + 1], ByKey(key, id))
    {
      PickSnoc(nodes, rows, i, ByKey(key, id));
    }
  }

  lemma {:induction false} PickNothing(nodes: seq<Node>, rows: seq<Row>, key: Column, id: int)
    requires |nodes| == |rows| && forall r | r in rows :: !Holds(r, key, id)
    ensures Pick(nodes, rows, ByKey(key, id)) == []
  {
    if rows != [] {
      PickNothing(nodes[..|rows| - 1], rows[..|rows| - 1], key, id);
    }
  }

  /** The first loop of a many-to-one loader. */
  method CollectForeignKeys(key: Column, nodes: seq<Node>, ghost rows: seq<Row>)
    returns (ids: seq<int>, nodeids: map<int, seq<Node>>)
    requires |nodes| == |rows|
    requires forall i | 0 <= i < |nodes| ::
      IsInt(nodes[i].fields, key) == IsInt(rows[i], key) && IntAt(nodes[i].fields, key) == IntAt(rows[i], key)
    ensures KeysOnce(key, rows, ids) && GroupedByKey(key, nodes, rows, ids, nodeids)
  {
    ids, nodeids := [], map[];
    for i := 0 to |nodes|
      invariant KeysOnce(key, rows[..i], ids)
      invariant GroupedByKey(key, nodes[..i], rows[..i], ids, nodeids)
    {
      KeysStep(key, rows[..i], rows[i], ids);
      assert rows[..i + 1] == rows[..i] + [rows[i]];
      if !IsInt(nodes[i].fields, key) {
        GroupSkip(key, nodes, rows, i, ids, nodeids);
        continue;
      }
      var fk := IntAt(nodes[i].fields, key);
      GroupStep(key, nodes, rows, i, ids, nodeids, fk);
      if fk !in nodeids {
        ids := ids + [fk];
      }
      nodeids := nodeids[fk := (if fk in nodeids then nodeids[fk] else []) + [nodes[i]]];
    }
    assert nodes[..|nodes|] == nodes && rows[..|nodes|] == rows;
  }

  /** The edges are as `before`, but for edge `e` of the nodes that have a neighbour in `ones`. */
  ghost predicate OnesAre(nodes: seq<Node>, before: seq<map<Edge, seq<Node>>>, e: Edge, ones: seq<seq<Node>>)
    reads nodes
  {
    && |before| == |ones| == |nodes|
    && forall i | 0 <= i < |nodes| ::
         nodes[i].edges == if ones[i] == [] then before[i] else before[i][e := ones[i]]
  }

  ghost function Redirected(nodes: seq<Node>, ones: seq<seq<Node>>, targets: seq<Node>, n: Node): (r: seq<seq<Node>>)
    requires |ones| == |nodes|
    ensures |r| == |nodes|
  {
    seq(|nodes|, i requires 0 <= i < |nodes| => if nodes[i] in targets then [n] else ones[i])
  }

  /** Points edge `e` of all `targets` at `n`. */
  method PointAt(nodes: seq<Node>, ghost before: seq<map<Edge, seq<Node>>>, e: Edge, ghost ones: seq<seq<Node>>,
                 targets: seq<Node>, n: Node)
    requires Apart(nodes) && OnesAre(nodes, before, e, ones) && forall t | t in targets :: t in nodes
    modifies nodes`edges
    ensures OnesAre(nodes, before, e, Redirected(nodes, ones, targets, n))
  {
    assert Redirected(nodes, ones, targets[..0], n) == ones;
    for k := 0 to |targets|
      invariant OnesAre(nodes, before, e, Redirected(nodes, ones, targets[..k], n))
    {
      assert targets[k] in targets;
      assert targets[..k + 1] == targets[..k] + [targets[k]];
      Redirect(nodes, before, e, Redirected(nodes, ones, targets[..k], n), targets[k], n);
      assert Redirected(nodes, Redirected(nodes, ones, targets[..k], n), [targets[k]], n) ==
             Redirected(nodes, ones, targets[..k + 1], n);
    }
    assert targets[..|targets|] == targets;
  }

  method Redirect(nodes: seq<Node>, ghost before: seq<map<Edge, seq<Node>>>, e: Edge, ghost ones: seq<seq<Node>>,
                  target: Node, n: Node)
    requires Apart(nodes) && OnesAre(nodes, before, e, ones) && target in nodes
    modifies target`edges
    ensures OnesAre(nodes, before, e, Redirected(nodes, ones, [target], n))
  {
    target.edges := target.edges[e := [n]];
  }

  /** The neighbour that node `i` points to after these neighbours were assigned: the last whose id is its key. */
  ghost function OneFor(key: Column, rows: seq<Row>, neighbours: seq<Node>, childRows: seq<Row>, i: nat): seq<Node>
    requires i < |rows| && |neighbours| == |childRows|
  {
    if !IsInt(rows[i], key) then []
    else
      var mine := Pick(neighbours, childRows, ByKey(Id, IntAt(rows[i], key)));
      if mine == [] then [] else [mine[|mine| - 1]]
  }

  ghost function OnesFor(key: Column, rows: seq<Row>, neighbours: seq<Node>, childRows: seq<Row>): seq<seq<Node>>
    requires |neighbours| == |childRows|
  {
    seq(|rows|, i requires 0 <= i < |rows| => OneFor(key, rows, neighbours, childRows, i))
  }

  lemma {:induction false} PickContains(nodes: seq<Node>, rows: seq<Row>, s: Selector)
    requires |nodes| == |rows| && Apart(nodes)
    ensures forall i | 0 <= i < |nodes| :: nodes[i] in Pick(nodes, rows, s) <==> Hit(s, rows[i])
    ensures forall n | n in Pick(nodes, rows, s) :: n in nodes
  {
    if rows != [] {
      var n := |rows| - 1;
      PickContains(nodes[..n], rows[..n], s);
      PickSubset(nodes[..n], rows[..n], s);
      assert forall i | 0 <= i < n :: nodes[..n][i] == nodes[i] && rows[..n][i] == rows[i];
      assert nodes[n] !in nodes[..n];
    }
  }

  lemma OneForStep(key: Column, rows: seq<Row>, neighbours: seq<Node>, childRows: seq<Row>, j: nat, i: nat)
    requires i < |rows| && j < |neighbours| == |childRows| && IsInt(childRows[j], Id)
    ensures OneFor(key, rows, neighbours[..j + 1], childRows[..j + 1], i) ==
            if Holds(rows[i], key, IntAt(childRows[j], Id)) then [neighbours[j]]
            else OneFor(key, rows, neighbours[..j], childRows[..j], i)
  {
    PickSnoc(neighbours, childRows, j, ByKey(Id, IntAt(rows[i], key)));
  }

  lemma OnesForStep(key: Column, nodes: seq<Node>, rows: seq<Row>, neighbours: seq<Node>, childRows: seq<Row>,
                    j: nat, targets: seq<Node>)
    requires |nodes| == |rows| && Apart(nodes) && j < |neighbours| == |childRows| && IsInt(childRows[j], Id)
    requires targets == Pick(nodes, rows, ByKey(key, IntAt(childRows[j], Id)))
    ensures OnesFor(key, rows, neighbours[..j + 1], childRows[..j + 1]) ==
            Redirected(nodes, OnesFor(key, rows, neighbours[..j], childRows[..j]), targets, neighbours[j])
    ensures forall t | t in targets :: t in nodes
  {
    PickContains(nodes, rows, ByKey(key, IntAt(childRows[j], Id)));
    forall i | 0 <= i < |rows|
      ensures OneFor(key, rows, neighbours[..j + 1], childRows[..j + 1], i) ==
              if nodes[i] in targets then [neighbours[j]] else OneFor(key, rows, neighbours[..j], childRows[..j], i)
    {
      OneForStep(key, rows, neighbours, childRows, j, i);
    }
  }

  /** One iteration of that loop: neighbour `j` is assigned to the nodes that have its id as key. */
  method AttachNeighbour(e: Edge, key: Column, nodes: seq<Node>, targets: seq<Node>, n: Node,
                         ghost neighbours: seq<Node>, ghost rows: seq<Row>, ghost childRows: seq<Row>,
                         ghost before: seq<map<Edge, seq<Node>>>, ghost j: nat)
    requires |nodes| == |rows| && Apart(nodes)
    requires j < |neighbours| == |childRows| && n == neighbours[j] && IsInt(childRows[j], Id)
    requires targets == Pick(nodes, rows, ByKey(key, IntAt(childRows[j], Id)))
    requires OnesAre(nodes, before, e, OnesFor(key, rows, neighbours[..j], childRows[..j]))
    modifies nodes`edges
    ensures OnesAre(nodes, before, e, OnesFor(key, rows, neighbours[..j + 1], childRows[..j + 1]))
  {
    OnesForStep(key, nodes, rows, neighbours, childRows, j, targets);
    PointAt(nodes, before, e, OnesFor(key, rows, neighbours[..j], childRows[..j]), targets, n);
  }

  /** The second loop of a many-to-one loader: each neighbour is assigned to all nodes with its id as key. */
  method AttachOne(e: Edge, key: Column, nodes: seq<Node>, ids: seq<int>, nodeids: map<int, seq<Node>>,
                   neighbours: seq<Node>, ghost rows: seq<Row>, ghost childRows: seq<Row>,
                   ghost before: seq<map<Edge, seq<Node>>>)
    returns (r: Result<()>)
    requires |nodes| == |rows| && Apart(nodes) && GroupedByKey(key, nodes, rows, ids, nodeids)
    requires |neighbours| == |childRows|
    requires forall j | 0 <= j < |neighbours| ::
      IsInt(childRows[j], Id) && IntAt(neighbours[j].fields, Id) == IntAt(childRows[j], Id)
    requires before == EdgesOf(nodes)
    modifies nodes`edges
    ensures r.Success? <==> forall c | c in childRows :: IntAt(c, Id) in ids
    ensures r.Success? ==> OnesAre(nodes, before, e, OnesFor(key, rows, neighbours, childRows))
  {
    for j := 0 to |neighbours|
      invariant KeysKnown(Id, childRows, j, nodeids.Keys)
      invariant OnesAre(nodes, before, e, OnesFor(key, rows, neighbours[..j], childRows[..j]))
    {
      var n := neighbours[j];
      var id := IntAt(n.fields, Id);
      if id !in nodeids {
        assert childRows[j] in childRows;
        return Failure(UnexpectedNode(id));
      }
      assert KeysKnown(Id, childRows, j + 1, nodeids.Keys);
      AttachNeighbour(e, key, nodes, nodeids[id], n, neighbours, rows, childRows, before, j);
    }
    assert neighbours[..|neighbours|] == neighbours && childRows[..|neighbours|] == childRows;
    r := Success(());
  }
}
