/** How the order of a joined result shows in a many-to-many load. */
module JoinOrder {
  import opened Schema
  import opened Relations
  import opened NaiveLoad

  /** Rows of a joined result that carry one id are one row. */
  ghost predicate RowsById(joined: seq<Joined>) {
    forall j, k | j in joined && k in joined && IntAt(j.row, Id) == IntAt(k.row, Id) :: j.row == k.row
  }

  /** The joined rows of one owner. */
  function OfOwner(joined: seq<Joined>, owner: int): seq<Joined> {
    if joined == [] then []
    else
      var n := |joined| - 1;
      OfOwner(joined[..n], owner) + if joined[n].out == owner then [joined[n]] else []
  }

  /** The rows whose objects `loadGroups` puts on an owner: of the created objects, in order, those that the join
      links to it. */
  function LinkedRows(joined: seq<Joined>, owner: int): seq<Row> {
    PickRows(FirstRows(joined), ByJoined(joined, owner))
  }

  lemma {:induction false} OfOwnerMembers(joined: seq<Joined>, owner: int)
    ensures forall j :: j in OfOwner(joined, owner) <==> j in joined && j.out == owner
  {
    if joined != [] {
      var n := |joined| - 1;
      OfOwnerMembers(joined[..n], owner);
      assert joined == joined[..n] + [joined[n]];
    }
  }

  lemma FirstRowsMembers(joined: seq<Joined>)
    requires RowsById(joined)
    ensures forall r :: r in FirstRows(joined) <==> HasJoined(joined, r)
  {
    FirstRowsFromJoined(joined);
    FirstRowsCover(joined);
    forall r | HasJoined(joined, r)
      ensures r in FirstRows(joined)
    {
      var out :| Joined(out, r) in joined;
      var first :| first in FirstRows(joined) && IntAt(first, Id) == IntAt(r, Id);
      var out' :| Joined(out', first) in joined;
      assert Joined(out, r).row == Joined(out', first).row;
    }
  }

  lemma {:induction false} PickDistinct(rows: seq<Row>, s: Selector)
    requires DistinctIds(rows)
    ensures DistinctIds(PickRows(rows, s))
  {
    if rows != [] {
      var n := |rows| - 1;
      var front := rows[..n];
      PickDistinct(front, s);
      PickMembers(front, s);
      PickRowsSnoc(front, rows[n], s);
      assert rows == front + [rows[n]];
      forall r | r in PickRows(front, s)
        ensures IntAt(r, Id) != IntAt(rows[n], Id)
      {
        var i :| 0 <= i < n && front[i] == r;
        assert rows[i] == r;
      }
      if Hit(s, rows[n]) {
        AppendDistinct(PickRows(front, s), rows[n]);
      }
    }
  }

  /** Whatever order the database returns the join in, and however often it repeats a row, an owner gets exactly
      the rows linked to it, each once. */
  lemma AnyJoinOrder(joined: seq<Joined>, owner: int)
    requires RowsById(joined)
    ensures forall r :: r in LinkedRows(joined, owner) <==> Joined(owner, r) in joined
    ensures DistinctIds(LinkedRows(joined, owner))
  {
    FirstRowsMembers(joined);
    FirstRowsDistinct(joined);
    PickMembers(FirstRows(joined), ByJoined(joined, owner));
    PickDistinct(FirstRows(joined), ByJoined(joined, owner));
    forall r | Joined(owner, r) in joined
      ensures HasJoined(joined, r)
    {
    }
  }

  // ---- Order in a list without repetition ----

  ghost predicate Once(rows: seq<Row>) {
    forall i, j | 0 <= i < j < |rows| :: rows[i] != rows[j]
  }

  lemma DistinctIsOnce(rows: seq<Row>)
    requires DistinctIds(rows)
    ensures Once(rows)
  {
  }

  ghost predicate Before(rows: seq<Row>, g: Row, h: Row) {
    exists i, j | 0 <= i < j < |rows| :: rows[i] == g && rows[j] == h
  }

  lemma BeforeSnoc(rows: seq<Row>, r: Row, g: Row, h: Row)
    ensures Before(rows + [r], g, h) <==> Before(rows, g, h) || (g in rows && h == r)
  {
    var more := rows + [r];
    if Before(rows, g, h) {
      var i, j :| 0 <= i < j < |rows| && rows[i] == g && rows[j] == h;
      assert more[i] == g && more[j] == h;
    }
    if g in rows && h == r {
      var i :| 0 <= i < |rows| && rows[i] == g;
      assert more[i] == g && more[|rows|] == h;
    }
    if Before(more, g, h) {
      var i, j :| 0 <= i < j < |more| && more[i] == g && more[j] == h;
      assert rows[i] == g;
    }
  }

  lemma BeforeIsOneWay(rows: seq<Row>, g: Row, h: Row)
    requires Once(rows) && g in rows && h in rows && g != h
    ensures Before(rows, g, h) <==> !Before(rows, h, g)
  {
    var i :| 0 <= i < |rows| && rows[i] == g;
    var j :| 0 <= j < |rows| && rows[j] == h;
    assert i < j ==> Before(rows, g, h);
    assert j < i ==> Before(rows, h, g);
  }

  /** Lists without repetition are equal if they have the same elements in the same order. */
  lemma {:induction false} SameOrder(a: seq<Row>, b: seq<Row>)
    requires Once(a) && Once(b) && forall r :: r in a <==> r in b
    requires forall g, h | Before(a, g, h) :: Before(b, g, h)
    ensures a == b
    decreases |a|
  {
    NonEmptyHasElement(b);
    if a != [] {
      var x, front := a[|a| - 1], a[..|a| - 1];
      LastOfBoth(a, b);
      assert a == front + [x] && b == b[..|b| - 1] + [x];
      FrontsAgree(front, b[..|b| - 1], x);
      SameOrder(front, b[..|b| - 1]);
    }
  }

  lemma NonEmptyHasElement(rows: seq<Row>)
    ensures rows != [] ==> exists r :: r in rows
  {
    if rows != [] {
      assert rows[0] in rows;
    }
  }

  lemma LastIsNotBefore(rows: seq<Row>, r: Row)
    requires Once(rows) && rows != []
    ensures !Before(rows, rows[|rows| - 1], r)
  {
  }

  lemma BeforeLast(rows: seq<Row>, r: Row)
    requires r in rows
    ensures r == rows[|rows| - 1] || Before(rows, r, rows[|rows| - 1])
  {
    var i :| 0 <= i < |rows| && rows[i] == r;
    assert i < |rows| - 1 ==> Before(rows, r, rows[|rows| - 1]);
  }

  lemma LastOfBoth(a: seq<Row>, b: seq<Row>)
    requires Once(a) && Once(b) && a != [] && forall r :: r in a <==> r in b
    requires forall g, h | Before(a, g, h) :: Before(b, g, h)
    ensures b != [] && b[|b| - 1] == a[|a| - 1]
  {
    var x := a[|a| - 1];
    assert x in a;
    var y := b[|b| - 1];
    assert y in b;
    BeforeLast(a, y);
    LastIsNotBefore(b, x);
  }

  lemma FrontsAgree(a: seq<Row>, b: seq<Row>, x: Row)
    requires Once(a + [x]) && Once(b + [x]) && forall r :: r in a + [x] <==> r in b + [x]
    requires forall g, h | Before(a + [x], g, h) :: Before(b + [x], g, h)
    ensures Once(a) && Once(b) && forall r :: r in a <==> r in b
    ensures forall g, h | Before(a, g, h) :: Before(b, g, h)
  {
    NotInFront(a, x);
    NotInFront(b, x);
    assert forall r :: r in a + [x] <==> r in a || r == x;
    assert forall r :: r in b + [x] <==> r in b || r == x;
    forall g, h | Before(a, g, h)
      ensures Before(b, g, h)
    {
      BeforeSnoc(a, x, g, h);
      BeforeSnoc(b, x, g, h);
      assert h in a;
    }
  }

  lemma NotInFront(a: seq<Row>, x: Row)
    requires Once(a + [x])
    ensures x !in a && Once(a)
  {
    var all := a + [x];
    forall i | 0 <= i < |a|
      ensures a[i] != x
    {
      assert all[i] == a[i] && all[|a|] == x;
    }
    forall i, j | 0 <= i < j < |a|
      ensures a[i] != a[j]
    {
      assert all[i] == a[i] && all[j] == a[j];
    }
  }

  lemma {:induction false} PickKeepsBefore(rows: seq<Row>, s: Selector, g: Row, h: Row)
    requires Hit(s, g) && Hit(s, h)
    ensures Before(PickRows(rows, s), g, h) <==> Before(rows, g, h)
  {
    if rows != [] {
      var n := |rows| - 1;
      var front := rows[..n];
      assert rows == front + [rows[n]];
      PickKeepsBefore(front, s, g, h);
      PickRowsSnoc(front, rows[n], s);
      PickMembers(front, s);
      BeforeSnoc(front, rows[n], g, h);
      BeforeSnoc(PickRows(front, s), rows[n], g, h);
      assert PickRows(front, s) + [] == PickRows(front, s);
    }
  }

  // ---- When a joined result keeps the order of an owner's own rows ----

  /** Target `g` comes first, before any row of target `h`. */
  ghost predicate Precedes(joined: seq<Joined>, g: Row, h: Row) {
    exists i | 0 <= i < |joined| :: joined[i].row == g && forall k | 0 <= k <= i :: joined[k].row != h
  }

  /** The same among the rows of one owner. */
  ghost predicate PrecedesFor(joined: seq<Joined>, owner: int, g: Row, h: Row) {
    exists i | 0 <= i < |joined| ::
      joined[i] == Joined(owner, g) && forall k | 0 <= k <= i :: joined[k] != Joined(owner, h)
  }

  /** Two targets linked to the owner come first in one order in the whole result, and in the other order among the
      owner's own rows. */
  ghost predicate Swaps(joined: seq<Joined>, owner: int, g: Row, h: Row) {
    && Joined(owner, g) in joined && Joined(owner, h) in joined
    && Precedes(joined, g, h) && PrecedesFor(joined, owner, h, g)
  }

  ghost predicate SwapsSome(joined: seq<Joined>, owner: int) {
    exists g, h :: Swaps(joined, owner, g, h)
  }

  lemma RowAt(joined: seq<Joined>, r: Row) returns (k: nat)
    requires HasJoined(joined, r)
    ensures k < |joined| && joined[k].row == r
  {
    var out :| Joined(out, r) in joined;
    k :| k < |joined| && joined[k] == Joined(out, r);
  }

  lemma PrecedesSnoc(front: seq<Joined>, j: Joined, g: Row, h: Row)
    ensures Precedes(front + [j], g, h) <==>
            Precedes(front, g, h) || (j.row == g && g != h && !HasJoined(front, h))
  {
    var all := front + [j];
    if Precedes(front, g, h) {
      var i :| 0 <= i < |front| && front[i].row == g && forall k | 0 <= k <= i :: front[k].row != h;
      assert all[i].row == g && forall k | 0 <= k <= i :: all[k].row != h;
    }
    if j.row == g && g != h && !HasJoined(front, h) {
      forall k | 0 <= k <= |front|
        ensures all[k].row != h
      {
        assert k < |front| ==> Joined(all[k].out, all[k].row) in front;
      }
      assert all[|front|].row == g;
    }
    if Precedes(all, g, h) {
      var i :| 0 <= i < |all| && all[i].row == g && forall k | 0 <= k <= i :: all[k].row != h;
      if i < |front| {
        assert front[i].row == g && forall k | 0 <= k <= i :: front[k] == all[k];
      } else {
        assert forall k | 0 <= k < |front| :: all[k] == front[k];
        if HasJoined(front, h) {
          var k := RowAt(front, h);
        }
      }
    }
  }

  /** The objects are created in the order in which their targets come first. */
  lemma {:induction false} BeforeIsPrecedes(joined: seq<Joined>, g: Row, h: Row)
    requires RowsById(joined) && HasJoined(joined, g) && HasJoined(joined, h) && g != h
    ensures Before(FirstRows(joined), g, h) <==> Precedes(joined, g, h)
  {
    var n := |joined| - 1;
    var front, j := joined[..n], joined[n];
    assert joined == front + [j];
    assert RowsById(front) by {
      assert forall k | k in front :: k in joined;
    }
    HasJoinedSnoc(front, j, g);
    HasJoinedSnoc(front, j, h);
    PrecedesSnoc(front, j, g, h);
    FirstRowsMembers(front);
    FirstRowsSnoc(front, j);
    RowOfId(front, j);
    BeforeSnoc(FirstRows(front), j.row, g, h);
    if HasJoined(front, g) && HasJoined(front, h) {
      BeforeIsPrecedes(front, g, h);
    } else {
      NeverPrecedes(front, g, h);
      NeverBefore(FirstRows(front), g, h);
    }
  }

  lemma NeverBefore(rows: seq<Row>, g: Row, h: Row)
    requires g !in rows || h !in rows
    ensures !Before(rows, g, h)
  {
  }

  lemma NeverPrecedes(joined: seq<Joined>, g: Row, h: Row)
    ensures !HasJoined(joined, g) ==> !Precedes(joined, g, h)
    ensures HasJoined(joined, g) && !HasJoined(joined, h) ==> Precedes(joined, g, h)
  {
    if i :| 0 <= i < |joined| && joined[i].row == g {
      assert Joined(joined[i].out, g) in joined;
      if !HasJoined(joined, h) {
        forall k | 0 <= k < |joined|
          ensures joined[k].row != h
        {
          assert Joined(joined[k].out, joined[k].row) in joined;
        }
        assert Precedes(joined, g, h);
      }
    }
    if HasJoined(joined, g) {
      var out :| Joined(out, g) in joined;
      var i :| 0 <= i < |joined| && joined[i] == Joined(out, g);
      assert joined[i].row == g;
    }
  }

  lemma HasJoinedSnoc(front: seq<Joined>, j: Joined, r: Row)
    ensures HasJoined(front + [j], r) <==> HasJoined(front, r) || r == j.row
  {
    assert j in front + [j];
    assert Joined(j.out, j.row) == j;
    forall out | Joined(out, r) in front
      ensures Joined(out, r) in front + [j]
    {
    }
  }

  /** A target has an object if and only if its row was seen. */
  lemma RowOfId(front: seq<Joined>, j: Joined)
    requires RowsById(front + [j]) && RowsById(front)
    ensures HasRowWithId(FirstRows(front), IntAt(j.row, Id)) <==> HasJoined(front, j.row)
  {
    FirstRowsMembers(front);
    if HasRowWithId(FirstRows(front), IntAt(j.row, Id)) {
      var r :| r in FirstRows(front) && IntAt(r, Id) == IntAt(j.row, Id);
      var out :| Joined(out, r) in front;
      assert Joined(out, r) in front + [j] && j in front + [j];
      assert Joined(out, r).row == j.row;
    }
  }

  lemma OfOwnerSnoc(front: seq<Joined>, j: Joined, owner: int)
    ensures OfOwner(front + [j], owner) == OfOwner(front, owner) + if j.out == owner then [j] else []
  {
    assert (front + [j])[..|front|] == front;
  }

  lemma OwnHasJoined(joined: seq<Joined>, owner: int, r: Row)
    ensures HasJoined(OfOwner(joined, owner), r) <==> Joined(owner, r) in joined
  {
    OfOwnerMembers(joined, owner);
    if Joined(owner, r) in joined {
      assert Joined(owner, r) in OfOwner(joined, owner);
    }
  }

  lemma PrecedesForSnoc(front: seq<Joined>, j: Joined, owner: int, g: Row, h: Row)
    ensures PrecedesFor(front + [j], owner, g, h) <==>
            PrecedesFor(front, owner, g, h) || (j == Joined(owner, g) && g != h && Joined(owner, h) !in front)
  {
    var all := front + [j];
    if PrecedesFor(front, owner, g, h) {
      var i :| 0 <= i < |front| && front[i] == Joined(owner, g) &&
               forall k | 0 <= k <= i :: front[k] != Joined(owner, h);
      assert all[i] == Joined(owner, g) && forall k | 0 <= k <= i :: all[k] != Joined(owner, h);
    }
    if j == Joined(owner, g) && g != h && Joined(owner, h) !in front {
      assert all[|front|] == j && forall k | 0 <= k < |front| :: all[k] == front[k];
    }
    if PrecedesFor(all, owner, g, h) {
      var i :| 0 <= i < |all| && all[i] == Joined(owner, g) && forall k | 0 <= k <= i :: all[k] != Joined(owner, h);
      assert forall k | 0 <= k < |front| :: all[k] == front[k];
    }
  }

  /** The order among an owner's rows is the order of the result of its own. */
  lemma {:induction false} OwnPrecedes(joined: seq<Joined>, owner: int, g: Row, h: Row)
    ensures PrecedesFor(joined, owner, g, h) <==> Precedes(OfOwner(joined, owner), g, h)
  {
    if joined != [] {
      var front, j := joined[..|joined| - 1], joined[|joined| - 1];
      assert joined == front + [j];
      OwnPrecedes(front, owner, g, h);
      OfOwnerSnoc(front, j, owner);
      PrecedesForSnoc(front, j, owner, g, h);
      PrecedesSnoc(OfOwner(front, owner), j, g, h);
      OwnHasJoined(front, owner, h);
      assert OfOwner(front, owner) + [] == OfOwner(front, owner);
    }
  }

  lemma OwnRowsById(joined: seq<Joined>, owner: int)
    requires RowsById(joined)
    ensures RowsById(OfOwner(joined, owner))
    ensures forall r :: r in FirstRows(OfOwner(joined, owner)) <==> Joined(owner, r) in joined
    ensures Once(FirstRows(OfOwner(joined, owner)))
  {
    OfOwnerMembers(joined, owner);
    FirstRowsMembers(OfOwner(joined, owner));
    FirstRowsDistinct(OfOwner(joined, owner));
    forall r
      ensures HasJoined(OfOwner(joined, owner), r) <==> Joined(owner, r) in joined
    {
      OwnHasJoined(joined, owner, r);
    }
  }

  /** The order of two targets, in the list that the load puts on the owner and in the owner's own result. */
  lemma OrdersOfTwo(joined: seq<Joined>, owner: int, g: Row, h: Row)
    requires RowsById(joined) && Joined(owner, g) in joined && Joined(owner, h) in joined && g != h
    ensures Before(LinkedRows(joined, owner), g, h) <==> Precedes(joined, g, h)
    ensures Before(FirstRows(OfOwner(joined, owner)), g, h) <==> PrecedesFor(joined, owner, g, h)
  {
    assert HasJoined(joined, g) && HasJoined(joined, h);
    BeforeIsPrecedes(joined, g, h);
    PickKeepsBefore(FirstRows(joined), ByJoined(joined, owner), g, h);
    OwnRowsById(joined, owner);
    OwnHasJoined(joined, owner, g);
    OwnHasJoined(joined, owner, h);
    BeforeIsPrecedes(OfOwner(joined, owner), g, h);
    OwnPrecedes(joined, owner, g, h);
  }

  /** The load puts its rows on an owner in the order of the owner's own rows if and only if no two of them are
      swapped in the whole result. */
  lemma JoinOrderIff(joined: seq<Joined>, owner: int)
    requires RowsById(joined)
    ensures LinkedRows(joined, owner) == FirstRows(OfOwner(joined, owner)) <==> !SwapsSome(joined, owner)
  {
    var mine, own := LinkedRows(joined, owner), FirstRows(OfOwner(joined, owner));
    AnyJoinOrder(joined, owner);
    DistinctIsOnce(mine);
    OwnRowsById(joined, owner);
    if mine == own {
      forall g, h
        ensures !Swaps(joined, owner, g, h)
      {
        if Swaps(joined, owner, g, h) {
          SwappedDiffers(joined, owner, g, h);
        }
      }
    } else if !SwapsSome(joined, owner) {
      forall g, h | Before(mine, g, h)
        ensures Before(own, g, h)
      {
        UnswappedAgrees(joined, owner, g, h);
      }
      SameOrder(mine, own);
    }
  }

  lemma SwappedDiffers(joined: seq<Joined>, owner: int, g: Row, h: Row)
    requires RowsById(joined) && Swaps(joined, owner, g, h)
    ensures LinkedRows(joined, owner) != FirstRows(OfOwner(joined, owner))
  {
    OrdersOfTwo(joined, owner, g, h);
    OrdersOfTwo(joined, owner, h, g);
    OwnRowsById(joined, owner);
    BeforeIsOneWay(FirstRows(OfOwner(joined, owner)), g, h);
  }

  lemma UnswappedAgrees(joined: seq<Joined>, owner: int, g: Row, h: Row)
    requires RowsById(joined) && !Swaps(joined, owner, g, h) && Before(LinkedRows(joined, owner), g, h)
    ensures Before(FirstRows(OfOwner(joined, owner)), g, h)
  {
    AnyJoinOrder(joined, owner);
    DistinctIsOnce(LinkedRows(joined, owner));
    OwnRowsById(joined, owner);
    OrdersOfTwo(joined, owner, g, h);
    OrdersOfTwo(joined, owner, h, g);
    BeforeIsOneWay(FirstRows(OfOwner(joined, owner)), g, h);
  }

  /** The rows of each target are returned one after the other. */
  ghost predicate Grouped(joined: seq<Joined>) {
    forall a, b, c | 0 <= a < b < c < |joined| && joined[a].row == joined[c].row :: joined[b].row == joined[a].row
  }

  /** If the join returns the rows of each target together, as an ORDER BY that tells all targets apart makes it, the
      owner's list is in the order of the owner's own rows. */
  lemma GroupedJoinOrder(joined: seq<Joined>, owner: int)
    requires Grouped(joined) && RowsById(joined)
    ensures LinkedRows(joined, owner) == FirstRows(OfOwner(joined, owner))
  {
    JoinOrderIff(joined, owner);
    forall g, h
      ensures !Swaps(joined, owner, g, h)
    {
      if Swaps(joined, owner, g, h) {
        SwappedIsUngrouped(joined, owner, g, h);
      }
    }
  }

  lemma SwappedIsUngrouped(joined: seq<Joined>, owner: int, g: Row, h: Row)
    requires Swaps(joined, owner, g, h)
    ensures !Grouped(joined)
  {
    var a :| 0 <= a < |joined| && joined[a].row == g && forall k | 0 <= k <= a :: joined[k].row != h;
    var b :| 0 <= b < |joined| && joined[b] == Joined(owner, h) &&
             forall k | 0 <= k <= b :: joined[k] != Joined(owner, g);
    var c :| 0 <= c < |joined| && joined[c] == Joined(owner, g);
    assert a < b < c && joined[b].row != joined[a].row;
  }

  /** A result in which the order differs: two targets are linked to owner 2 in one order, and a row of owner 1 makes
      them come first in the other order. */
  lemma SwappedOrderDiffers(g: Row, h: Row)
    requires IntAt(g, Id) != IntAt(h, Id)
    ensures var joined := [Joined(1, g), Joined(2, h), Joined(2, g)];
            RowsById(joined) && LinkedRows(joined, 2) != FirstRows(OfOwner(joined, 2))
  {
    var joined := [Joined(1, g), Joined(2, h), Joined(2, g)];
    assert joined[0].row == g && joined[1] == Joined(2, h) && joined[2] == Joined(2, g);
    assert Swaps(joined, 2, g, h);
    SwappedDiffers(joined, 2, g, h);
  }
}
