/** Small databases on which the loaders do not give what a lookup gives. */
module Examples {
  import opened Options
  import opened Store
  import opened EagerLoad
  import opened Projection
  import opened Windows
  import opened NestedLimit
  import opened NestedJoinLimit
  import opened NestedLimitRun
  import opened Rerun
  import opened StaleEdges
  import opened Schema

  const PARENT := "parent_account_id"

  function Child(id: int, parent: int): Row {
    map[ID := Int(id), PARENT := Int(parent)]
  }

  function Group(id: int): Row {
    map[ID := Int(id)]
  }

  const GROUP := Entity("groups", [ID, "name"], true)

  /** Two accounts, each the parent of the other, and two groups. */
  function Couple(pairs: seq<(int, int)>): Database {
    Database(map["accounts" := [Child(1, 2), Child(2, 1)], "groups" := [Group(7), Group(8)]], map["account_groups" := pairs])
  }

  function Windowed(limit: Option<nat>, offset: Option<nat>): Config {
    Config([], [], limit, offset, [], [])
  }

  const PLAIN := Windowed(None, None)
  const PARENT_EDGE := M2O("parent", PARENT, false)
  const CHILDREN_EDGE := O2M("children", PARENT, false)
  const GROUPS_EDGE := M2M("groups", "account_groups")

  /** An entity that can stand for the accounts. */
  predicate AccountLike(e: Entity) {
    e.table == "accounts" && e.hasId && ID in e.columns && PARENT in e.columns
  }

  lemma AccountIsAccountLike()
    ensures AccountLike(ACCOUNT)
  {
    assert ACCOUNT.columns[0] == ID && ACCOUNT.columns[37] == PARENT;
  }

  /** All accounts, with one edge to a nested builder under a window. */
  function Run(e: Entity, edge: Edge, target: Entity, cfg: Config): Query {
    Query(e, PLAIN, [With(edge, Query(target, cfg, []))])
  }

  /******* The rows *******/

  lemma RowKeys()
    ensures Key(Child(1, 2), ID) == Some(1) && Key(Child(1, 2), PARENT) == Some(2)
    ensures Key(Child(2, 1), ID) == Some(2) && Key(Child(2, 1), PARENT) == Some(1)
    ensures Key(Group(7), ID) == Some(7) && Key(Group(8), ID) == Some(8)
  {
    assert |PARENT| != |ID|;
  }

  lemma {:induction false} NoPredicates(rows: seq<Row>)
    ensures Select([], rows) == rows && Sort([], rows) == rows
  {
    if rows != [] {
      NoPredicates(rows[1..]);
      assert rows == [rows[0]] + rows[1..];
      assert Insert([], rows[0], rows[1..]) == [rows[0]] + rows[1..];
    }
  }

  lemma Both(a: Row, b: Row, p: Pred)
    requires Holds(p, a) && Holds(p, b)
    ensures Select([p], [a, b]) == [a, b]
  {
    HoldsOne(p, a);
    HoldsOne(p, b);
    assert [a, b][1..] == [b] && [b][1..] == [];
    assert Select([p], [b]) == [b];
  }

  lemma AccountRows(pairs: seq<(int, int)>, e: Entity, limit: Option<nat>, offset: Option<nat>)
    requires e.table == "accounts"
    ensures Matching(Couple(pairs), e, Windowed(limit, offset)) == [Child(1, 2), Child(2, 1)]
    ensures Rows(Couple(pairs), e, PLAIN) == [Child(1, 2), Child(2, 1)]
    ensures UniqueIds(Couple(pairs).Table("accounts"))
  {
    NoPredicates([Child(1, 2), Child(2, 1)]);
    RowKeys();
  }

  lemma GroupRows(pairs: seq<(int, int)>, limit: Option<nat>, offset: Option<nat>)
    ensures Matching(Couple(pairs), GROUP, Windowed(limit, offset)) == [Group(7), Group(8)]
    ensures UniqueIds(Couple(pairs).Table("groups"))
  {
    assert |"groups"| != |"accounts"|;
    NoPredicates([Group(7), Group(8)]);
    RowKeys();
  }

  /** The decoded accounts, with their IDs and the keys of their parents. */
  lemma AccountNodes(q: Query)
    requires AccountLike(q.entity) && q.cfg == PLAIN
    ensures var nodes := BareAll(q, PLAIN, [Child(1, 2), Child(2, 1)]);
            IdList(nodes) == [1, 2] && KeyList(nodes, PARENT, false) == [2, 1]
  {
    RowKeys();
    var rows := [Child(1, 2), Child(2, 1)];
    var nodes := BareAll(q, PLAIN, rows);
    forall i | 0 <= i < 2 ensures Key(nodes[i].row, ID) == Key(rows[i], ID) && Key(nodes[i].row, PARENT) == Key(rows[i], PARENT) {
    }
    var first := nodes[..1];
    assert first[..0] == [] && nodes[..|nodes| - 1] == first && first[..|first| - 1] == [];
    assert KeyList(first, PARENT, false) == [2];
  }

  lemma RunIsLoadable(pairs: seq<(int, int)>, e: Entity, edge: Edge, target: Entity, limit: Option<nat>, offset: Option<nat>)
    requires AccountLike(e) && (target == e || target == GROUP)
    requires FitsEdge(e, With(edge, Query(target, Windowed(limit, offset), [])))
    ensures var q := Run(e, edge, target, Windowed(limit, offset));
            WellTyped(q) && Selectable(q) && Loadable(Couple(pairs), q.withs[0].sub)
  {
    AccountRows(pairs, e, None, None);
    GroupRows(pairs, None, None);
    assert GROUP.columns[0] == ID;
    var sub := Query(target, Windowed(limit, offset), []);
    assert WellTyped(sub) && Selectable(sub);
  }

  lemma TwoOwners(s: seq<Row>, col: string, skip: nat, take: nat)
    requires |s| == 2 && KeyAt(col)(s[0]) != KeyAt(col)(s[1])
    requires (skip == 0 && take == 1) || (skip == 1 && take == 0)
    ensures !Fair(KeyAt(col), s, skip, take)
  {
  }

  /******* A window on a nested builder *******/

  /** A limit of one, or an offset of one, on the children of two accounts. */
  lemma ChildrenRun(e: Entity, limit: Option<nat>, offset: Option<nat>)
    requires AccountLike(e)
    requires (limit == Some(1) && offset == None) || (limit == None && offset == Some(1))
    ensures var q := Run(e, CHILDREN_EDGE, e, Windowed(limit, offset));
            BatchAll(Couple([]), q, PLAIN) != RefAll(Couple([]), q, PLAIN)
  {
    var db, q, cfg := Couple([]), Run(e, CHILDREN_EDGE, e, Windowed(limit, offset)), Windowed(limit, offset);
    var rows := [Child(1, 2), Child(2, 1)];
    AccountRows([], e, limit, offset);
    RunIsLoadable([], e, CHILDREN_EDGE, e, limit, offset);
    AccountNodes(q);
    RowKeys();
    MatchingWhere(db, e, cfg, ColIn(PARENT, [1, 2]));
    Both(rows[0], rows[1], ColIn(PARENT, [1, 2]));
    TwoOwners(rows, PARENT, cfg.Skip(), cfg.Take());
    O2MRunExactly(db, q);
  }

  /** A limit of one on the parents of two accounts. */
  lemma ParentsRun(e: Entity)
    requires AccountLike(e)
    ensures var q := Run(e, PARENT_EDGE, e, Windowed(Some(1), None));
            BatchAll(Couple([]), q, PLAIN) != RefAll(Couple([]), q, PLAIN)
  {
    var db, q, cfg := Couple([]), Run(e, PARENT_EDGE, e, Windowed(Some(1), None)), Windowed(Some(1), None);
    var rows := [Child(1, 2), Child(2, 1)];
    AccountRows([], e, Some(1), None);
    RunIsLoadable([], e, PARENT_EDGE, e, Some(1), None);
    AccountNodes(q);
    RowKeys();
    MatchingWhere(db, e, cfg, ColIn(ID, [2, 1]));
    Both(rows[0], rows[1], ColIn(ID, [2, 1]));
    TwoOwners(rows, ID, 0, 1);
    M2ORunExactly(db, q);
  }

  lemma TwoMemberships()
    ensures JoinAll([(1, 7), (2, 8)], [1, 2], [Group(7), Group(8)]) == [Joined(1, Group(7)), Joined(2, Group(8))]
  {
    RowKeys();
    var pairs: seq<(int, int)> := [(1, 7), (2, 8)];
    assert pairs[1..] == [(2, 8)] && |pairs[1..][1..]| == 0;
    assert JoinOne(pairs[1..], [1, 2], Group(7)) == [] && JoinOne(pairs[1..], [1, 2], Group(8)) == [Joined(2, Group(8))];
    assert [Group(7), Group(8)][1..] == [Group(8)] && [Group(8)][1..] == [];
    assert JoinAll(pairs, [1, 2], [Group(8)]) == [Joined(2, Group(8))];
  }

  lemma TwoMembers(a: Joined, b: Joined)
    requires a.owner != b.owner
    ensures !Fair(Owner(), [a, b], 0, 1)
  {
    assert Owner()([a, b][0]) != Owner()([a, b][1]);
  }

  /** A limit of one on the groups of two accounts with one group each. */
  lemma GroupsRun(e: Entity)
    requires AccountLike(e)
    ensures var q := Run(e, GROUPS_EDGE, GROUP, Windowed(Some(1), None));
            BatchAll(Couple([(1, 7), (2, 8)]), q, PLAIN) != RefAll(Couple([(1, 7), (2, 8)]), q, PLAIN)
  {
    var pairs := [(1, 7), (2, 8)];
    var db, q := Couple(pairs), Run(e, GROUPS_EDGE, GROUP, Windowed(Some(1), None));
    AccountRows(pairs, e, None, None);
    GroupRows(pairs, Some(1), None);
    RunIsLoadable(pairs, e, GROUPS_EDGE, GROUP, Some(1), None);
    AccountNodes(q);
    TwoMemberships();
    assert JoinBatch(db, q.withs[0], [1, 2]) == [Joined(1, Group(7)), Joined(2, Group(8))];
    TwoMembers(Joined(1, Group(7)), Joined(2, Group(8)));
    M2MRunExactly(db, q);
  }

  /** Runs over accounts that differ from the lookup: with a limit of one or an offset of
      one on the children, and with a limit of one on the parent or on the groups. */
  lemma WindowsLoseNeighbors()
    ensures var q := Run(ACCOUNT, CHILDREN_EDGE, ACCOUNT, Windowed(Some(1), None));
            BatchAll(Couple([]), q, PLAIN) != RefAll(Couple([]), q, PLAIN)
    ensures var q := Run(ACCOUNT, CHILDREN_EDGE, ACCOUNT, Windowed(None, Some(1)));
            BatchAll(Couple([]), q, PLAIN) != RefAll(Couple([]), q, PLAIN)
    ensures var q := Run(ACCOUNT, PARENT_EDGE, ACCOUNT, Windowed(Some(1), None));
            BatchAll(Couple([]), q, PLAIN) != RefAll(Couple([]), q, PLAIN)
    ensures var q := Run(ACCOUNT, GROUPS_EDGE, GROUP, Windowed(Some(1), None));
            BatchAll(Couple([(1, 7), (2, 8)]), q, PLAIN) != RefAll(Couple([(1, 7), (2, 8)]), q, PLAIN)
  {
    AccountIsAccountLike();
    ChildrenRun(ACCOUNT, Some(1), None);
    ChildrenRun(ACCOUNT, None, Some(1));
    ParentsRun(ACCOUNT);
    GroupsRun(ACCOUNT);
  }

  /******* A used builder *******/

  function Bearer(id: int): Tree {
    Tree(map[ID := Int(id)], {}, map[], map[])
  }

  lemma UsedChildrenBuilder(e: Entity)
    requires AccountLike(e)
    ensures var w := With(CHILDREN_EDGE, Query(e, PLAIN, []));
            BatchEdge(Couple([]), With(w.edge, AfterEdge(Couple([]), w, [Bearer(1)])), [Bearer(2)]) !=
            BatchEdge(Couple([]), w, [Bearer(2)])
  {
    var w := With(CHILDREN_EDGE, Query(e, PLAIN, []));
    var rows := [Child(1, 2), Child(2, 1)];
    AccountRows([], e, None, None);
    RowKeys();
    assert rows[0] in rows;
    assert HasRow(Couple([]), e, PLAIN, PARENT, 2);
    assert PLAIN.Force(PARENT) == PLAIN;
    assert Id(Bearer(2).row) == 2 && IdList([Bearer(1)]) == [1];
    StaleChildrenExactly(Couple([]), w, [Bearer(1)], [Bearer(2)]);
    assert [Bearer(2)][0] == Bearer(2);
  }

  /** A builder that has loaded the children of account 1 finds none for account 2. */
  lemma UsedBuilderLosesChildren()
    ensures var w := With(CHILDREN_EDGE, Query(ACCOUNT, PLAIN, []));
            BatchEdge(Couple([]), With(w.edge, AfterEdge(Couple([]), w, [Bearer(1)])), [Bearer(2)]) !=
            BatchEdge(Couple([]), w, [Bearer(2)])
  {
    AccountIsAccountLike();
    UsedChildrenBuilder(ACCOUNT);
  }

  /** Loading the groups of account 2 through a builder that has loaded those of account 1,
      where both are in group 7, panics. */
  lemma ReloadedGroupsPanic()
    ensures var w := With(GROUPS_EDGE, Query(GROUP, PLAIN, []));
            var db := Couple([(1, 7), (2, 7)]);
            BatchEdge(db, With(w.edge, AfterEdge(db, w, [Bearer(1)])), [Bearer(2)]).Err?
  {
    var w, pairs := With(GROUPS_EDGE, Query(GROUP, PLAIN, [])), [(1, 7), (2, 7)];
    var db := Couple(pairs);
    GroupRows(pairs, None, None);
    RowKeys();
    assert IdList([Bearer(1)]) == [1] && IdList([Bearer(2)]) == [2];
    assert pairs[0] == (1, 7) && pairs[1] == (2, 7);
    assert IsLinked(pairs, [1], 7) && IsLinked(pairs, [2], 7);
    assert Group(7) in [Group(7), Group(8)];
    assert SharedNeighbor(db, w, [1], [2]);
    RerunJoinExactly(db, w, [Bearer(1)], [Bearer(2)]);
  }
}
