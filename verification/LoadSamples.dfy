/** Concrete databases in which a to-many load is not what one might expect. */
module LoadSamples {
  import opened Wrappers
  import opened Schema
  import opened Relations
  import opened NaiveLoad
  import opened NaiveTrees
  import opened JoinOrder
  import opened JoinResults
  import opened EdgeResults
  import opened ToManyLaws

  /** A row with this id and these cells, and NULL or zero elsewhere. */
  function SampleRow(entity: Entity, id: int, cells: Row): Row {
    map c | c in Columns(entity) ::
      if c in cells then cells[c] else if c.Id? then IntV(id) else if NotNull(c) then IntV(0) else Null
  }

  lemma SampleIsValid(entity: Entity, id: int, cells: Row)
    requires forall c | c in cells :: HasKind(cells[c], KindOf(c)) && !cells[c].Null?
    ensures ValidRow(entity, SampleRow(entity, id, cells))
  {
    forall c | ValidColumn(entity, c)
      ensures c in Columns(entity)
    {
      ColumnsAreValid(entity, c);
    }
  }

  function SampleDatabase(accounts: seq<Row>, groups: seq<Row>, links: seq<Row>, logs: seq<Row>,
                          order: (seq<Joined>, Row -> int) -> seq<Joined>): Database {
    Database(map[Account := accounts, Group := groups, AccountGroup := links, Proxy := [], UsageLog := logs], order)
  }

  lemma SampleDatabaseIsValid(accounts: seq<Row>, groups: seq<Row>, links: seq<Row>, logs: seq<Row>,
                              order: (seq<Joined>, Row -> int) -> seq<Joined>)
    requires ValidTable(Account, accounts) && ValidTable(Group, groups)
    requires ValidTable(AccountGroup, links) && ValidTable(UsageLog, logs)
    requires forall joined, rank :: SameJoinedRows(order(joined, rank), joined)
    requires forall joined, rank | RankedJoin(joined, rank) :: RankedJoin(order(joined, rank), rank)
    ensures ValidDatabase(SampleDatabase(accounts, groups, links, logs, order))
    ensures var db := SampleDatabase(accounts, groups, links, logs, order);
            && db.tables[Account] == accounts && db.tables[Group] == groups && db.tables[AccountGroup] == links
            && db.tables[UsageLog] == logs && db.joinOrder == order
  {
    var db := SampleDatabase(accounts, groups, links, logs, order);
    assert ValidTable(Proxy, []);
    forall entity: Entity
      ensures entity in db.tables && ValidTable(entity, db.tables[entity])
    {
      match entity
      case Account => assert db.tables[Account] == accounts;
      case AccountGroup => assert db.tables[AccountGroup] == links;
      case Group => assert db.tables[Group] == groups;
      case Proxy => assert db.tables[Proxy] == [];
      case UsageLog => assert db.tables[UsageLog] == logs;
    }
    assert db.joinOrder == order;
  }

  lemma OneAccountWithLog() returns (db: Database, account: Row, log: Row)
    ensures ValidDatabase(db) && account in db.tables[Account] && log in db.tables[UsageLog]
    ensures Holds(log, AccountId, IntAt(account, Id))
  {
    var cells := map[AccountId := IntV(1)];
    account, log := SampleRow(Account, 1, map[]), SampleRow(UsageLog, 5, cells);
    SampleIsValid(Account, 1, map[]);
    SampleIsValid(UsageLog, 5, cells);
    SampleCells(log);
    var order := (joined: seq<Joined>, _: Row -> int) => joined;
    SampleDatabaseIsValid([account], [], [], [log], order);
    db := SampleDatabase([account], [], [], [log], order);
  }

  /** An account that is listed twice, as a path query with `Unique(false)` can return it: the first of its objects
      gets no usage logs although there is one, whatever the load does besides. */
  lemma RepeatedAccountLosesLogs() returns (db: Database, sub: Query, rows: seq<Row>)
    ensures ValidDatabase(db) && WellTyped(sub) && sub.entity == Target(UsageLogs)
    ensures |rows| == 2 && rows[0] == rows[1] && rows[0] in db.tables[Account]
    ensures forall results | AreToManyResults(db, UsageLogs, sub, rows, results) ::
              results[0] == Some([]) && !AreNaiveResults(db, UsageLogs, sub, rows, results)
  {
    var account, log;
    db, account, log := OneAccountWithLog();
    sub := Query(UsageLog, [], _ => true, _ => 0, map[]);
    rows := [account, account];
    LogIsNeighbour(db, sub, account, log);
    forall results | AreToManyResults(db, UsageLogs, sub, rows, results)
      ensures results[0] == Some([]) && !AreNaiveResults(db, UsageLogs, sub, rows, results)
    {
      NamesakeLoses(db, UsageLogs, sub, account, results);
    }
  }

  lemma LogIsNeighbour(db: Database, sub: Query, account: Row, log: Row)
    requires ValidDatabase(db) && sub.entity == UsageLog && log in db.tables[UsageLog] && sub.where(log)
    requires Holds(log, AccountId, IntAt(account, Id))
    ensures log in Neighbours(db, UsageLogs, sub, account)
  {
    FetchMembers(db, sub, In(AccountId, [IntAt(account, Id)]));
  }

  lemma NamesakeLoses(db: Database, e: Edge, sub: Query, row: Row, results: seq<Option<seq<Tree>>>)
    requires ValidDatabase(db) && !Rel(e).ManyToOne? && Neighbours(db, e, sub, row) != []
    requires AreToManyResults(db, e, sub, [row, row], results)
    ensures results[0] == Some([]) && !AreNaiveResults(db, e, sub, [row, row], results)
  {
    var rows := [row, row];
    assert rows[0] == rows[1] && !LastWithId(rows, 0);
    assert IsToManyResult(db, e, sub, rows, 0, results[0]);
    RepeatedIds(db, e, sub, rows, results);
  }

  lemma SampleCells(log: Row)
    requires log == SampleRow(UsageLog, 5, map[AccountId := IntV(1)])
    ensures AccountId in log && log[AccountId] == IntV(1)
    ensures IntAt(SampleRow(Account, 1, map[]), Id) == 1
  {
    assert Columns(UsageLog)[1] == AccountId;
    ColumnsAreValid(Account, Id);
  }

  /** An order that a database may choose: the last two rows of a join trade places if they rank the same. */
  function LastTwoSwapped(joined: seq<Joined>, rank: Row -> int): seq<Joined> {
    var n := |joined|;
    if n >= 2 && rank(joined[n - 2].row) == rank(joined[n - 1].row)
    then joined[..n - 2] + [joined[n - 1], joined[n - 2]] else joined
  }

  lemma LastTwoSwappedIsOrder(joined: seq<Joined>, rank: Row -> int)
    ensures SameJoinedRows(LastTwoSwapped(joined, rank), joined)
    ensures RankedJoin(joined, rank) ==> RankedJoin(LastTwoSwapped(joined, rank), rank)
  {
    var n := |joined|;
    if n >= 2 && rank(joined[n - 2].row) == rank(joined[n - 1].row) {
      assert joined == joined[..n - 2] + [joined[n - 2], joined[n - 1]];
      var swapped := joined[..n - 2] + [joined[n - 1], joined[n - 2]];
      assert forall k | 0 <= k < n - 2 :: swapped[k] == joined[k];
      assert swapped[n - 2] == joined[n - 1] && swapped[n - 1] == joined[n - 2];
    }
  }

  lemma SwappingIsAllowed()
    ensures forall joined, rank :: SameJoinedRows(LastTwoSwapped(joined, rank), joined)
    ensures forall joined, rank | RankedJoin(joined, rank) :: RankedJoin(LastTwoSwapped(joined, rank), rank)
  {
    forall joined, rank
      ensures SameJoinedRows(LastTwoSwapped(joined, rank), joined)
      ensures RankedJoin(joined, rank) ==> RankedJoin(LastTwoSwapped(joined, rank), rank)
    {
      LastTwoSwappedIsOrder(joined, rank);
    }
  }

  lemma SwapsLast(front: seq<Joined>, a: Joined, b: Joined, rank: Row -> int)
    requires rank(a.row) == rank(b.row)
    ensures LastTwoSwapped(front + [a] + [b], rank) == front + [b] + [a]
  {
    var joined := front + [a] + [b];
    assert joined[..|joined| - 2] == front;
  }

  function SampleLink(account: int, group: int): Row {
    SampleRow(AccountGroup, 0, map[AccountId := IntV(account), GroupId := IntV(group)])
  }

  lemma SampleLinkCells(account: int, group: int)
    ensures ValidRow(AccountGroup, SampleLink(account, group))
    ensures forall i :: Holds(SampleLink(account, group), AccountId, i) <==> i == account
    ensures forall i :: Holds(SampleLink(account, group), GroupId, i) <==> i == group
  {
    SampleIsValid(AccountGroup, 0, map[AccountId := IntV(account), GroupId := IntV(group)]);
    assert Columns(AccountGroup)[0] == AccountId && Columns(AccountGroup)[1] == GroupId;
  }

  lemma SampleId(entity: Entity, id: int)
    requires HasId(entity)
    ensures ValidRow(entity, SampleRow(entity, id, map[])) && IntAt(SampleRow(entity, id, map[]), Id) == id
  {
    SampleIsValid(entity, id, map[]);
    IdComesFirst(entity);
  }

  lemma TwoRows(entity: Entity)
    requires HasId(entity)
    ensures var rows := [SampleRow(entity, 1, map[]), SampleRow(entity, 2, map[])];
            ValidTable(entity, rows) && Ids(rows) == [1, 2]
  {
    SampleId(entity, 1);
    SampleId(entity, 2);
  }

  lemma ThreeLinks()
    ensures ValidTable(AccountGroup, [SampleLink(1, 1), SampleLink(2, 2), SampleLink(2, 1)])
  {
    SampleLinkCells(1, 1);
    SampleLinkCells(2, 2);
    SampleLinkCells(2, 1);
  }

  /** Two accounts and two groups: account 1 is linked to the first group, account 2 to both. */
  lemma TwoGroups() returns (db: Database, g: Row, h: Row)
    ensures ValidDatabase(db) && !KeepsOrder(db) && db.joinOrder == LastTwoSwapped
    ensures Ids(db.tables[Account]) == [1, 2]
    ensures db.tables[Group] == [g, h] && IntAt(g, Id) == 1 && IntAt(h, Id) == 2
    ensures db.tables[AccountGroup] == [SampleLink(1, 1), SampleLink(2, 2), SampleLink(2, 1)]
  {
    var accounts := [SampleRow(Account, 1, map[]), SampleRow(Account, 2, map[])];
    g, h := SampleRow(Group, 1, map[]), SampleRow(Group, 2, map[]);
    var links := [SampleLink(1, 1), SampleLink(2, 2), SampleLink(2, 1)];
    TwoRows(Account);
    TwoRows(Group);
    ThreeLinks();
    SwappingIsAllowed();
    SampleDatabaseIsValid(accounts, [g, h], links, [], LastTwoSwapped);
    db := SampleDatabase(accounts, [g, h], links, [], LastTwoSwapped);
    OrderIsNotKept(db, g, h);
  }

  lemma KeepMore(rows: seq<Row>, r: Row, where: Row -> bool)
    requires where(r) && Keep(rows, where, Everything) == rows
    ensures Keep(rows + [r], where, Everything) == rows + [r]
  {
    assert (rows + [r])[..|rows|] == rows;
  }

  lemma OrderMore(rows: seq<Row>, r: Row, rank: Row -> int)
    requires OrderBy(rows, rank) == rows && (rows != [] ==> rank(rows[|rows| - 1]) <= rank(r))
    ensures OrderBy(rows + [r], rank) == rows + [r]
  {
    assert (rows + [r])[..|rows|] == rows;
  }

  /** The rows of the query for all groups. */
  lemma FetchTwo(db: Database, sub: Query, g: Row, h: Row)
    requires ValidDatabase(db) && sub.entity == Group && db.tables[Group] == [g, h]
    requires forall r :: sub.where(r) && sub.rank(r) == 0
    ensures Fetch(db, sub, Everything) == [g, h]
  {
    KeepMore([], g, sub.where);
    KeepMore([] + [g], h, sub.where);
    OrderMore([], g, sub.rank);
    OrderMore([] + [g], h, sub.rank);
    assert [] + [g] + [h] == [g, h];
  }

  /** What one more link adds to the join of this target. */
  function JoinedBy(account: int, group: int, target: Row, ids: seq<int>): seq<Joined> {
    if group == IntAt(target, Id) && account in ids then [Joined(account, target)] else []
  }

  lemma LinkRowsSnoc(links: seq<Row>, account: int, group: int, target: Row, ids: seq<int>)
    ensures LinkRows(links + [SampleLink(account, group)], Groups, target, ids) ==
            LinkRows(links, Groups, target, ids) + JoinedBy(account, group, target, ids)
  {
    var l := SampleLink(account, group);
    assert (links + [l])[..|links|] == links;
    SampleLinkCells(account, group);
    assert Holds(l, AccountId, account);
  }

  lemma LinkRowsOfThree(target: Row, ids: seq<int>)
    ensures LinkRows([SampleLink(1, 1), SampleLink(2, 2), SampleLink(2, 1)], Groups, target, ids) ==
            [] + JoinedBy(1, 1, target, ids) + JoinedBy(2, 2, target, ids) + JoinedBy(2, 1, target, ids)
  {
    var a, b, c := SampleLink(1, 1), SampleLink(2, 2), SampleLink(2, 1);
    assert [a, b, c] == [] + [a] + [b] + [c];
    LinkRowsSnoc([], 1, 1, target, ids);
    LinkRowsSnoc([] + [a], 2, 2, target, ids);
    LinkRowsSnoc([] + [a] + [b], 2, 1, target, ids);
  }

  /** What the database returns for account 2, alone or with account 1. */
  lemma GroupsReturned(db: Database, sub: Query, g: Row, h: Row, ids: seq<int>)
    requires ValidDatabase(db) && sub.entity == Group && db.tables[Group] == [g, h]
    requires forall r :: sub.where(r) && sub.rank(r) == 0
    requires db.joinOrder == LastTwoSwapped && IntAt(g, Id) == 1 && IntAt(h, Id) == 2 && 2 in ids
    requires db.tables[AccountGroup] == [SampleLink(1, 1), SampleLink(2, 2), SampleLink(2, 1)]
    ensures db.joinOrder(JoinFor(db, Groups, sub, ids), sub.rank) ==
            (if 1 in ids then [Joined(1, g)] else []) + [Joined(2, h)] + [Joined(2, g)]
  {
    var front := if 1 in ids then [Joined(1, g)] else [];
    FetchTwo(db, sub, g, h);
    JoinOfTwo(g, h, ids);
    assert front + [Joined(2, g), Joined(2, h)] == front + [Joined(2, g)] + [Joined(2, h)];
    SwapsLast(front, Joined(2, g), Joined(2, h), sub.rank);
  }

  lemma JoinOfTwo(g: Row, h: Row, ids: seq<int>)
    requires IntAt(g, Id) == 1 && IntAt(h, Id) == 2 && 2 in ids
    ensures Join([g, h], [SampleLink(1, 1), SampleLink(2, 2), SampleLink(2, 1)], Groups, ids) ==
            (if 1 in ids then [Joined(1, g)] else []) + [Joined(2, g), Joined(2, h)]
  {
    var links, one, two := [SampleLink(1, 1), SampleLink(2, 2), SampleLink(2, 1)], [g], [g, h];
    assert one[..0] == [] && two[..1] == one;
    LinkRowsOfThree(g, ids);
    LinkRowsOfThree(h, ids);
    assert Join(one, links, Groups, ids) == [] + LinkRows(links, Groups, g, ids);
    assert Join(two, links, Groups, ids) == Join(one, links, Groups, ids) + LinkRows(links, Groups, h, ids);
  }

  lemma OrderIsNotKept(db: Database, g: Row, h: Row)
    requires db.joinOrder == LastTwoSwapped && IntAt(g, Id) != IntAt(h, Id)
    ensures !KeepsOrder(db)
  {
    var a, b, rank := Joined(1, g), Joined(1, h), (_: Row) => 0;
    assert LastTwoSwapped([a, b], rank) == [b, a];
    FirstOfTwo(a, b);
    FirstOfTwo(b, a);
    assert FirstRows(db.joinOrder([a, b], rank))[0] != FirstRows([a, b])[0];
  }

  lemma FirstOfTwo(a: Joined, b: Joined)
    ensures |FirstRows([a, b])| > 0 && FirstRows([a, b])[0] == a.row
  {
    var one, two := [a], [a, b];
    assert one[..0] == [] && two[..1] == one;
    assert FirstRows(one) == [a.row];
  }

  /** The groups of two accounts, loaded without any ORDER BY: what the database returns puts the groups on account 2
      in another order than its own rows have in the result, and in another order than loading account 2 alone does. */
  lemma GroupsMaySwap() returns (db: Database, sub: Query, joined: seq<Joined>, alone: seq<Joined>)
    ensures ValidDatabase(db) && WellTyped(sub) && sub.entity == Target(Groups)
    ensures Ids(db.tables[Account]) == [1, 2]
    ensures IsJoinResult(db, Groups, sub, [1, 2], joined) && IsJoinResult(db, Groups, sub, [2], alone)
    ensures joined == db.joinOrder(JoinFor(db, Groups, sub, [1, 2]), sub.rank)
    ensures alone == db.joinOrder(JoinFor(db, Groups, sub, [2]), sub.rank)
    ensures RowsById(joined) && LinkedRows(joined, 2) != FirstRows(OfOwner(joined, 2))
    ensures LinkedRows(joined, 2) != LinkedRows(alone, 2)
  {
    var g, h;
    db, g, h := TwoGroups();
    sub := Query(Group, [], _ => true, _ => 0, map[]);
    GroupsReturned(db, sub, g, h, [1, 2]);
    GroupsReturned(db, sub, g, h, [2]);
    joined := db.joinOrder(JoinFor(db, Groups, sub, [1, 2]), sub.rank);
    alone := db.joinOrder(JoinFor(db, Groups, sub, [2]), sub.rank);
    OrderedIsJoinResult(db, Groups, sub, [1, 2]);
    OrderedIsJoinResult(db, Groups, sub, [2]);
    assert joined == [Joined(1, g), Joined(2, h), Joined(2, g)] && alone == [Joined(2, h), Joined(2, g)];
    SwappedOrderDiffers(g, h);
    AloneIsOwn(g, h);
  }

  lemma AloneIsOwn(g: Row, h: Row)
    requires IntAt(g, Id) != IntAt(h, Id)
    ensures LinkedRows([Joined(2, h), Joined(2, g)], 2) ==
            FirstRows(OfOwner([Joined(1, g), Joined(2, h), Joined(2, g)], 2))
  {
    var alone, joined := [Joined(2, h), Joined(2, g)], [Joined(1, g), Joined(2, h), Joined(2, g)];
    GroupedJoinOrder(alone, 2);
    OwnOfTwo(Joined(2, h), Joined(2, g));
    OfOwnerSnoc([], Joined(1, g), 2);
    OfOwnerSnoc([] + [Joined(1, g)], Joined(2, h), 2);
    OfOwnerSnoc([] + [Joined(1, g)] + [Joined(2, h)], Joined(2, g), 2);
    assert [] + [Joined(1, g)] + [Joined(2, h)] + [Joined(2, g)] == joined;
  }

  lemma OwnOfTwo(a: Joined, b: Joined)
    requires a.out == b.out == 2
    ensures OfOwner([a, b], 2) == [a, b]
  {
    OfOwnerSnoc([], a, 2);
    OfOwnerSnoc([] + [a], b, 2);
    assert [] + [a] + [b] == [a, b];
  }
}
