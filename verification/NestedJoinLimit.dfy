/**
  A window on a builder that is read through a join counts join rows. This module says
  exactly when loading such an edge in batches still agrees with looking up each node.
 */
module NestedJoinLimit {
  import opened Store
  import opened EagerLoad
  import opened JoinOrder
  import opened Refinement
  import opened Projection
  import opened Windows
  import opened NestedLimit

  function Owner(): Joined -> int {
    (j: Joined) => j.owner
  }

  /******* Join rows along the neighbors *******/

  function Rank(base: seq<Row>, id: int): nat {
    if base == [] || Id(base[0]) == id then 0 else 1 + Rank(base[1..], id)
  }

  lemma {:induction false} RankOfRow(base: seq<Row>, row: Row)
    requires UniqueIds(base) && row in base
    ensures Rank(base, Id(row)) < |base| && base[Rank(base, Id(row))] == row
  {
    if base[0] != row {
      assert row in base[1..];
      var i :| 1 <= i < |base| && base[i] == row;
      RankOfRow(base[1..], row);
    }
  }

  /** The join rows follow the neighbors in their order, and no two are alike. */
  ghost predicate Along(base: seq<Row>, js: seq<Joined>) {
    && (forall i :: 0 <= i < |js| ==> js[i].row in base)
    && (forall i, j :: 0 <= i < j < |js| ==> Rank(base, Id(js[i].row)) <= Rank(base, Id(js[j].row)))
    && Distinct(js)
  }

  /** The join table has a primary key of both its columns. */
  ghost predicate DistinctPairs(pairs: seq<(int, int)>) {
    forall i, j :: 0 <= i < j < |pairs| ==> pairs[i] != pairs[j]
  }

  lemma {:induction false} JoinOneDistinct(pairs: seq<(int, int)>, owners: seq<int>, row: Row)
    requires DistinctPairs(pairs)
    ensures Distinct(JoinOne(pairs, owners, row))
  {
    if pairs != [] {
      JoinOneDistinct(pairs[1..], owners, row);
      JoinOneMembers(pairs[1..], owners, row);
      var rest := JoinOne(pairs[1..], owners, row);
      forall i | 0 <= i < |rest| && pairs[0].1 == Id(row) ensures rest[i] != Joined(pairs[0].0, row) {
        assert rest[i] in rest;
        assert (rest[i].owner, Id(row)) in pairs[1..];
        var k :| 1 <= k < |pairs| && pairs[k] == (rest[i].owner, Id(row));
        assert pairs[0] != pairs[k];
      }
    }
  }

  lemma {:induction false} JoinAllAlong(pairs: seq<(int, int)>, owners: seq<int>, base: seq<Row>)
    requires UniqueIds(base) && DistinctPairs(pairs)
    ensures Along(base, JoinAll(pairs, owners, base))
  {
    if base != [] {
      var row, rest := base[0], base[1..];
      JoinAllAlong(pairs, owners, rest);
      JoinOneDistinct(pairs, owners, row);
      JoinOneMembers(pairs, owners, row);
      var js, more := JoinOne(pairs, owners, row), JoinAll(pairs, owners, rest);
      forall i | 0 <= i < |js| ensures js[i].row == row {
        assert js[i] in js;
      }
      forall i | 0 <= i < |more|
        ensures more[i].row in base && Rank(base, Id(more[i].row)) == 1 + Rank(rest, Id(more[i].row)) && more[i].row != row
      {
        assert more[i].row in rest;
        var k :| 0 <= k < |rest| && rest[k] == more[i].row;
        assert base[k + 1] == more[i].row;
      }
    }
  }

  lemma AlongSlice(base: seq<Row>, js: seq<Joined>, lo: nat, hi: nat)
    requires Along(base, js) && lo <= hi <= |js|
    ensures Along(base, js[lo..hi])
  {
    var cut := js[lo..hi];
    assert forall i :: 0 <= i < |cut| ==> cut[i] == js[lo + i];
  }

  lemma AlongCut(base: seq<Row>, js: seq<Joined>, skip: nat, take: nat)
    requires Along(base, js)
    ensures Along(base, Cut(skip, take, js))
  {
    if skip <= |js| {
      var hi := if take == 0 || |js| - skip <= take then |js| else skip + take;
      AlongSlice(base, js, skip, hi);
      assert js[skip..hi] == Cut(skip, take, js);
    }
  }

  /******* The neighbors of one owner *******/

  function JoinedTo(js: seq<Joined>, owner: int): Pred {
    Custom((r: Row) => InJoin(js, owner, Id(r)))
  }

  lemma {:induction false} FirstOfEachSnoc(js: seq<Joined>, x: Joined, seen: set<int>)
    ensures FirstOfEach(js + [x], seen) ==
            FirstOfEach(js, seen) + if Id(x.row) in seen || FirstAt(js, Id(x.row)) < |js| then [] else [x.row]
  {
    if js == [] {
      assert (js + [x])[1..] == [];
    } else {
      assert (js + [x])[1..] == js[1..] + [x];
      var id := Id(js[0].row);
      FirstOfEachSnoc(js[1..], x, if id in seen then seen else seen + {id});
    }
  }

  /** A later join row of the same neighbor follows directly. */
  lemma SameNeighborLast(base: seq<Row>, js: seq<Joined>, x: Joined, k: nat)
    requires UniqueIds(base) && Along(base, js + [x]) && k < |js| && Id(js[k].row) == Id(x.row)
    ensures js[|js| - 1].row == x.row
  {
    var all, last := js + [x], |js| - 1;
    assert all[k] == js[k] && all[last] == js[last] && all[|js|] == x;
    RankOfRow(base, js[last].row);
    RankOfRow(base, x.row);
    assert Rank(base, Id(all[k].row)) <= Rank(base, Id(all[last].row)) <= Rank(base, Id(all[|js|].row));
  }

  lemma NotYetJoined(base: seq<Row>, js: seq<Joined>, x: Joined)
    requires UniqueIds(base) && Along(base, js + [x])
    ensures !InJoin(js, x.owner, Id(x.row))
  {
    InJoinExactly(js, x.owner, Id(x.row));
    var all := js + [x];
    assert all[|js|] == x;
    forall j | 0 <= j < |js| && js[j].owner == x.owner ensures Id(js[j].row) != Id(x.row) {
      assert all[j] == js[j] && all[j] != all[|js|];
      assert all[j].row in base && all[|js|].row in base;
      SameIdSameRow(base, js[j].row, x.row);
    }
  }

  /** The neighbors that are not that of the last join row are joined as before. */
  lemma OthersAsBefore(js: seq<Joined>, x: Joined, owner: int, rows: seq<Row>)
    requires forall r :: r in rows ==> Id(r) != Id(x.row)
    ensures Select([JoinedTo(js + [x], owner)], rows) == Select([JoinedTo(js, owner)], rows)
  {
    assert (js + [x])[..|js|] == js;
    SelectSame(JoinedTo(js + [x], owner), JoinedTo(js, owner), rows);
  }

  lemma OwnRowConcat(js: seq<Joined>, more: seq<Joined>, owner: int)
    ensures OwnRow(Of(Owner(), js + more, owner)) == OwnRow(Of(Owner(), js, owner)) + OwnRow(Of(Owner(), more, owner))
  {
    OfConcat(Owner(), js, more, owner);
  }

  lemma OwnRowSnoc(js: seq<Joined>, x: Joined, owner: int)
    ensures OwnRow(Of(Owner(), js + [x], owner)) ==
            OwnRow(Of(Owner(), js, owner)) + if x.owner == owner then [x.row] else []
  {
    OwnRowConcat(js, [x], owner);
    assert [x][1..] == [];
    assert OwnRow(Of(Owner(), [x], owner)) == if x.owner == owner then [x.row] else [];
  }

  /** Among the neighbors that the join rows show first, those of one owner are the rows
      joined to it, in order. */
  lemma {:induction false} NeighborsOfOwner(base: seq<Row>, js: seq<Joined>, owner: int)
    requires UniqueIds(base) && Along(base, js)
    ensures Select([JoinedTo(js, owner)], FirstOfEach(js, {})) == OwnRow(Of(Owner(), js, owner))
  {
    if js != [] {
      var init, x := js[..|js| - 1], js[|js| - 1];
      assert js == init + [x];
      AlongSlice(base, js, 0, |js| - 1);
      NeighborsOfOwner(base, init, owner);
      FirstOfEachSnoc(init, x, {});
      OwnRowSnoc(init, x, owner);
      FirstAtExactly(init, Id(x.row));
      var rows := FirstOfEach(init, {});
      if FirstAt(init, Id(x.row)) < |init| {
        SameNeighborLast(base, init, x, FirstAt(init, Id(x.row)));
        LastShown(base, init);
        assert FirstOfEach(js, {}) == rows;
        OldNeighbor(base, init, x, owner);
      } else {
        assert FirstOfEach(js, {}) == rows + [x.row];
        NewNeighbor(init, x, owner);
      }
    }
  }

  /** The neighbor of the last join row is the last one shown. */
  lemma {:induction false} LastShown(base: seq<Row>, js: seq<Joined>)
    requires UniqueIds(base) && Along(base, js) && js != []
    ensures var rows := FirstOfEach(js, {}); rows != [] && rows[|rows| - 1] == js[|js| - 1].row
  {
    var init, x := js[..|js| - 1], js[|js| - 1];
    assert js == init + [x];
    FirstOfEachSnoc(init, x, {});
    FirstAtExactly(init, Id(x.row));
    if FirstAt(init, Id(x.row)) < |init| {
      AlongSlice(base, js, 0, |js| - 1);
      LastShown(base, init);
      SameNeighborLast(base, init, x, FirstAt(init, Id(x.row)));
      assert FirstOfEach(js, {}) == FirstOfEach(init, {});
    }
  }

  lemma NewNeighbor(js: seq<Joined>, x: Joined, owner: int)
    requires FirstAt(js, Id(x.row)) == |js|
    ensures Select([JoinedTo(js + [x], owner)], FirstOfEach(js, {}) + [x.row]) ==
            Select([JoinedTo(js, owner)], FirstOfEach(js, {})) + if x.owner == owner then [x.row] else []
  {
    var rows := FirstOfEach(js, {});
    forall r | r in rows ensures Id(r) != Id(x.row) {
      var i :| 0 <= i < |rows| && rows[i] == r;
      FirstOfEachSound(js, {}, i);
    }
    OthersAsBefore(js, x, owner, rows);
    SelectSnoc(JoinedTo(js + [x], owner), rows, x.row);
    FirstAtExactly(js, Id(x.row));
    InJoinExactly(js, owner, Id(x.row));
    assert (js + [x])[..|js|] == js;
  }

  lemma OldNeighbor(base: seq<Row>, js: seq<Joined>, x: Joined, owner: int)
    requires UniqueIds(base) && Along(base, js + [x]) && js != []
    requires var rows := FirstOfEach(js, {}); rows != [] && rows[|rows| - 1] == x.row
    ensures Select([JoinedTo(js + [x], owner)], FirstOfEach(js, {})) ==
            Select([JoinedTo(js, owner)], FirstOfEach(js, {})) + if x.owner == owner then [x.row] else []
  {
    var rows := FirstOfEach(js, {});
    var init := rows[..|rows| - 1];
    assert rows == init + [x.row];
    forall r | r in init ensures Id(r) != Id(x.row) {
      var i :| 0 <= i < |init| && init[i] == r;
      FirstOfEachOrdered(js, {}, i, |rows| - 1);
      assert rows[i] == r;
    }
    OthersAsBefore(js, x, owner, init);
    SelectSnoc(JoinedTo(js + [x], owner), init, x.row);
    SelectSnoc(JoinedTo(js, owner), init, x.row);
    assert (js + [x])[..|js|] == js;
    NotYetJoined(base, js, x);
  }

  lemma {:induction false} OneRowOfOwner(pairs: seq<(int, int)>, owners: seq<int>, row: Row, owner: int)
    requires DistinctPairs(pairs) && owner in owners
    ensures OwnRow(Of(Owner(), JoinOne(pairs, owners, row), owner)) == if (owner, Id(row)) in pairs then [row] else []
  {
    if pairs != [] {
      assert pairs == [pairs[0]] + pairs[1..];
      OneRowOfOwner(pairs[1..], owners, row, owner);
      if pairs[0] == (owner, Id(row)) {
        assert forall k :: 0 <= k < |pairs[1..]| ==> pairs[1..][k] == pairs[k + 1] != pairs[0];
        assert (owner, Id(row)) !in pairs[1..];
        var js := JoinOne(pairs[1..], owners, row);
        assert OwnRow(Of(Owner(), js, owner)) == [];
        assert Of(Owner(), [Joined(owner, row)] + js, owner) == [Joined(owner, row)] + Of(Owner(), js, owner);
      }
    }
  }

  /** The join rows of one owner are the neighbors linked to it, in their order. */
  lemma {:induction false} RowsOfOwner(pairs: seq<(int, int)>, owners: seq<int>, base: seq<Row>, owner: int)
    requires DistinctPairs(pairs) && owner in owners
    ensures OwnRow(Of(Owner(), JoinAll(pairs, owners, base), owner)) == Select([Linked(pairs, [owner])], base)
  {
    if base != [] {
      RowsOfOwner(pairs, owners, base[1..], owner);
      OneRowOfOwner(pairs, owners, base[0], owner);
      var js, more := JoinOne(pairs, owners, base[0]), JoinAll(pairs, owners, base[1..]);
      OwnRowConcat(js, more, owner);
      HoldsOne(Linked(pairs, [owner]), base[0]);
      LinkedByPair(pairs, [owner], Id(base[0]));
    }
  }

  /******* The rows of a windowed join *******/

  /** All join rows of the edge for the given owners. */
  function JoinBatch(db: Database, w: With, ids: seq<int>): seq<Joined>
    requires w.edge.M2M?
  {
    JoinAll(db.Pairs(w.edge.join), ids, Matching(db, w.sub.entity, w.sub.cfg))
  }

  lemma JoinRowsAreCut(db: Database, w: With, ids: seq<int>)
    requires w.edge.M2M? && Joins(w.sub.cfg.preds) == []
    ensures var cfg := w.sub.cfg.Where(JoinIn(w.edge.join, ids));
            && |Joins(cfg.preds)| == 1
            && JoinRows(db, w.sub.entity, cfg) == Cut(w.sub.cfg.Skip(), w.sub.cfg.Take(), JoinBatch(db, w, ids))
  {
    var p := JoinIn(w.edge.join, ids);
    JoinsAppend(w.sub.cfg.preds, p);
    MatchingWhere(db, w.sub.entity, w.sub.cfg, p);
    SelectTrivial(p, Matching(db, w.sub.entity, w.sub.cfg));
  }

  lemma CutOwnRows(skip: nat, take: nat, js: seq<Joined>)
    ensures OwnRow(Cut(skip, take, js)) == Cut(skip, take, OwnRow(js))
  {
    if skip <= |js| {
      assert OwnRow(js[skip..]) == OwnRow(js)[skip..];
    }
  }

  lemma OwnerLookup(db: Database, w: With, ids: seq<int>, owner: int)
    requires w.edge.M2M? && DistinctPairs(db.Pairs(w.edge.join)) && owner in ids
    ensures Rows(db, w.sub.entity, w.sub.cfg.Where(Linked(db.Pairs(w.edge.join), [owner]))) ==
            OwnRow(Cut(w.sub.cfg.Skip(), w.sub.cfg.Take(), Of(Owner(), JoinBatch(db, w, ids), owner)))
  {
    var own, base := Linked(db.Pairs(w.edge.join), [owner]), Matching(db, w.sub.entity, w.sub.cfg);
    MatchingWhere(db, w.sub.entity, w.sub.cfg, own);
    RowsOfOwner(db.Pairs(w.edge.join), ids, base, owner);
    CutOwnRows(w.sub.cfg.Skip(), w.sub.cfg.Take(), Of(Owner(), JoinBatch(db, w, ids), owner));
  }

  lemma OwnRowTells(a: seq<Joined>, b: seq<Joined>, owner: int)
    requires forall i :: 0 <= i < |a| ==> a[i].owner == owner
    requires forall i :: 0 <= i < |b| ==> b[i].owner == owner
    ensures OwnRow(a) == OwnRow(b) <==> a == b
  {
    if OwnRow(a) == OwnRow(b) {
      assert |a| == |OwnRow(a)| == |b|;
      forall i | 0 <= i < |a| ensures a[i] == b[i] {
        assert OwnRow(a)[i] == a[i].row && OwnRow(b)[i] == b[i].row;
      }
    }
  }

  lemma OfOwner(js: seq<Joined>, owner: int)
    ensures forall i :: 0 <= i < |Of(Owner(), js, owner)| ==> Of(Owner(), js, owner)[i].owner == owner
  {
    OfMembers(Owner(), js, owner);
    var mine := Of(Owner(), js, owner);
    forall i | 0 <= i < |mine| ensures mine[i].owner == owner {
      assert mine[i] in mine;
    }
  }

  lemma {:induction false} KeepJoinedIsSelect(ns: seq<Tree>, rows: seq<Row>, js: seq<Joined>, owner: int)
    requires Shows(ns, rows, ID)
    ensures KeepJoined(ns, js, owner) == KeepAt(JoinedTo(js, owner), rows, ns)
  {
    if ns != [] {
      KeepJoinedIsSelect(ns[..|ns| - 1], rows[..|rows| - 1], js, owner);
      assert Key(ns[|ns| - 1].row, ID) == Key(rows[|rows| - 1], ID);
    }
  }

  /** What a windowed M2M edge can be loaded from. */
  ghost predicate Joinable(db: Database, w: With) {
    && w.edge.M2M? && WellTyped(w.sub) && w.sub.entity.hasId && Keyed(db, w.sub)
    && Joins(w.sub.cfg.preds) == [] && DistinctPairs(db.Pairs(w.edge.join))
  }

  /** The rows that a node gets from the join are those that it looks up, if and only if
      its share of the cut join rows is the cut of its own. */
  lemma JoinedShareRows(db: Database, w: With, ids: seq<int>, owner: int)
    requires Joinable(db, w) && owner in ids
    ensures var js := JoinRows(db, w.sub.entity, w.sub.cfg.Where(JoinIn(w.edge.join, ids)));
            Select([JoinedTo(js, owner)], FirstOfEach(js, {})) ==
            Rows(db, w.sub.entity, w.sub.cfg.Where(Linked(db.Pairs(w.edge.join), [owner]))) <==>
            SameShare(Owner(), JoinBatch(db, w, ids), w.sub.cfg.Skip(), w.sub.cfg.Take(), owner)
  {
    var base, all := Matching(db, w.sub.entity, w.sub.cfg), JoinBatch(db, w, ids);
    var skip, take := w.sub.cfg.Skip(), w.sub.cfg.Take();
    var js := Cut(skip, take, all);
    JoinRowsAreCut(db, w, ids);
    MatchingUniqueIds(db, w.sub.entity, w.sub.cfg);
    JoinAllAlong(db.Pairs(w.edge.join), ids, base);
    AlongCut(base, all, skip, take);
    NeighborsOfOwner(base, js, owner);
    OwnerLookup(db, w, ids, owner);
    OfOwner(js, owner);
    OfOwner(all, owner);
    var a, b := Of(Owner(), js, owner), Cut(skip, take, Of(Owner(), all, owner));
    OwnRowTells(a, b, owner);
  }

  lemma JoinedShareExactly(db: Database, w: With, ids: seq<int>, ns: seq<Tree>, owner: int)
    requires Joinable(db, w) && owner in ids && ValidFields(w.sub.entity, w.sub.cfg)
    requires var cfg := w.sub.cfg.Where(JoinIn(w.edge.join, ids));
             RefTrees(db, w.sub, cfg, FirstOfEach(JoinRows(db, w.sub.entity, cfg), {})) == Ok(ns)
    ensures var js := JoinRows(db, w.sub.entity, w.sub.cfg.Where(JoinIn(w.edge.join, ids)));
            RefAll(db, w.sub, w.sub.cfg.Where(Linked(db.Pairs(w.edge.join), [owner]))) == Ok(KeepJoined(ns, js, owner)) <==>
            SameShare(Owner(), JoinBatch(db, w, ids), w.sub.cfg.Skip(), w.sub.cfg.Take(), owner)
  {
    var sub, own := w.sub, Linked(db.Pairs(w.edge.join), [owner]);
    var cfg := sub.cfg.Where(JoinIn(w.edge.join, ids));
    var js := JoinRows(db, sub.entity, cfg);
    var rows, mine := FirstOfEach(js, {}), Rows(db, sub.entity, sub.cfg.Where(own));
    var p := JoinedTo(js, owner);
    ForcedColumns(sub, cfg.fields);
    RefTreesShow(db, sub, cfg, rows, ID);
    KeepJoinedIsSelect(ns, rows, js, owner);
    RefTreesSelect(db, sub, cfg, p, rows);
    SameTrees(db, sub, cfg, sub.cfg.Where(own), mine);
    JoinedShareRows(db, w, ids, owner);
    assert RefAll(db, sub, sub.cfg.Where(own)) == RefTrees(db, sub, cfg, mine);
    if RefTrees(db, sub, cfg, mine) == RefTrees(db, sub, cfg, Select([p], rows)) {
      var base := Matching(db, sub.entity, sub.cfg);
      MatchingUniqueIds(db, sub.entity, sub.cfg);
      JoinedRowsInBase(db, w, ids, owner);
      TreesTellRows(db, sub, cfg, Select([p], rows), mine, base);
    }
  }

  lemma JoinedRowsInBase(db: Database, w: With, ids: seq<int>, owner: int)
    requires Joinable(db, w) && owner in ids
    ensures var js := JoinRows(db, w.sub.entity, w.sub.cfg.Where(JoinIn(w.edge.join, ids)));
            var base := Matching(db, w.sub.entity, w.sub.cfg);
            && (forall r :: r in Select([JoinedTo(js, owner)], FirstOfEach(js, {})) ==> r in base)
            && (forall r :: r in Rows(db, w.sub.entity, w.sub.cfg.Where(Linked(db.Pairs(w.edge.join), [owner]))) ==> r in base)
  {
    var base, own := Matching(db, w.sub.entity, w.sub.cfg), Linked(db.Pairs(w.edge.join), [owner]);
    var js := JoinRows(db, w.sub.entity, w.sub.cfg.Where(JoinIn(w.edge.join, ids)));
    RowsShownInBase(db, w, ids);
    SelectMembers([JoinedTo(js, owner)], FirstOfEach(js, {}));
    MatchingWhere(db, w.sub.entity, w.sub.cfg, own);
    SelectMembers([own], base);
    WindowMembers(w.sub.cfg.Where(own), Select([own], base));
  }

  lemma RowsShownInBase(db: Database, w: With, ids: seq<int>)
    requires Joinable(db, w)
    ensures var js := JoinRows(db, w.sub.entity, w.sub.cfg.Where(JoinIn(w.edge.join, ids)));
            && (forall j :: j in js ==> j.owner in ids)
            && (forall r :: r in FirstOfEach(js, {}) ==> r in Matching(db, w.sub.entity, w.sub.cfg))
  {
    var js := JoinRows(db, w.sub.entity, w.sub.cfg.Where(JoinIn(w.edge.join, ids)));
    var all := JoinBatch(db, w, ids);
    JoinRowsAreCut(db, w, ids);
    WindowMembers(w.sub.cfg, all);
    JoinAllMembers(db.Pairs(w.edge.join), ids, Matching(db, w.sub.entity, w.sub.cfg));
    var rows := FirstOfEach(js, {});
    forall r | r in rows ensures r in Matching(db, w.sub.entity, w.sub.cfg) {
      var i :| 0 <= i < |rows| && rows[i] == r;
      FirstOfEachSound(js, {}, i);
      assert js[FirstAt(js, Id(r))] in js;
    }
  }

  /******* M2M *******/

  /** Every node looks up what it gets from the join. */
  ghost predicate JoinsLookedUp(db: Database, w: With, ids: seq<int>, ns: seq<Tree>)
    requires w.edge.M2M?
  {
    var js := JoinRows(db, w.sub.entity, w.sub.cfg.Where(JoinIn(w.edge.join, ids)));
    forall id :: id in ids ==>
      RefAll(db, w.sub, w.sub.cfg.Where(Linked(db.Pairs(w.edge.join), [id]))) == Ok(KeepJoined(ns, js, id))
  }

  ghost predicate FairJoin(db: Database, w: With, ids: seq<int>)
    requires w.edge.M2M?
  {
    Fair(Owner(), JoinBatch(db, w, ids), w.sub.cfg.Skip(), w.sub.cfg.Take())
  }

  lemma JoinedExactly(db: Database, w: With, ids: seq<int>, ns: seq<Tree>)
    requires Joinable(db, w) && ValidFields(w.sub.entity, w.sub.cfg)
    requires var cfg := w.sub.cfg.Where(JoinIn(w.edge.join, ids));
             RefTrees(db, w.sub, cfg, FirstOfEach(JoinRows(db, w.sub.entity, cfg), {})) == Ok(ns)
    ensures JoinsLookedUp(db, w, ids, ns) <==> FairJoin(db, w, ids)
  {
    var all, skip, take := JoinBatch(db, w, ids), w.sub.cfg.Skip(), w.sub.cfg.Take();
    var base := Matching(db, w.sub.entity, w.sub.cfg);
    forall id | id in ids
      ensures RefAll(db, w.sub, w.sub.cfg.Where(Linked(db.Pairs(w.edge.join), [id]))) ==
              Ok(KeepJoined(ns, JoinRows(db, w.sub.entity, w.sub.cfg.Where(JoinIn(w.edge.join, ids))), id)) <==>
              SameShare(Owner(), all, skip, take, id)
    {
      JoinedShareExactly(db, w, ids, ns, id);
    }
    if FairJoin(db, w, ids) {
      forall id | id in ids ensures SameShare(Owner(), all, skip, take, id) {
        FairShares(Owner(), all, skip, take, id);
      }
    }
    if JoinsLookedUp(db, w, ids, ns) {
      JoinAllMembers(db.Pairs(w.edge.join), ids, base);
      forall i | 0 <= i < |all| ensures SameShare(Owner(), all, skip, take, all[i].owner) {
        assert all[i] in all;
      }
      MatchingUniqueIds(db, w.sub.entity, w.sub.cfg);
      JoinAllAlong(db.Pairs(w.edge.join), ids, base);
      SharesAreFair(Owner(), all, skip, take);
    }
  }

  /** If a fair joined batch fails, so does the lookup of one of its nodes. */
  lemma FairJoinFailure(db: Database, w: With, ids: seq<int>) returns (id: int)
    requires Joinable(db, w) && ids != [] && FairJoin(db, w, ids)
    requires var cfg := w.sub.cfg.Where(JoinIn(w.edge.join, ids));
             !ValidFields(w.sub.entity, cfg) || RefTrees(db, w.sub, cfg, FirstOfEach(JoinRows(db, w.sub.entity, cfg), {})).Err?
    ensures id in ids && RefAll(db, w.sub, w.sub.cfg.Where(Linked(db.Pairs(w.edge.join), [id]))).Err?
  {
    var cfg := w.sub.cfg.Where(JoinIn(w.edge.join, ids));
    if !ValidFields(w.sub.entity, cfg) {
      id := ids[0];
    } else {
      var js := JoinRows(db, w.sub.entity, cfg);
      var rows := FirstOfEach(js, {});
      var row := FailureOfBatch(db, w.sub, cfg, rows);
      var i :| 0 <= i < |rows| && rows[i] == row;
      FirstOfEachSound(js, {}, i);
      var k := FirstAt(js, Id(row));
      RowsShownInBase(db, w, ids);
      assert js[k] in js;
      id := js[k].owner;
      InJoinExactly(js, id, Id(row));
      SelectMembers([JoinedTo(js, id)], rows);
      HoldsOne(JoinedTo(js, id), row);
      FairShares(Owner(), JoinBatch(db, w, ids), w.sub.cfg.Skip(), w.sub.cfg.Take(), id);
      JoinedShareRows(db, w, ids, id);
      var own := w.sub.cfg.Where(Linked(db.Pairs(w.edge.join), [id]));
      var mine := Rows(db, w.sub.entity, own);
      FailingRow(db, w.sub, cfg, mine, row);
      SameTrees(db, w.sub, cfg, own, mine);
    }
  }

  /** Under a window, an M2M edge is loaded as it is looked up if and only if its join rows
      are fair, or both ways fail. */
  lemma M2MWindowOrFailure(db: Database, q: Query, fields: seq<string>, k: nat, nodes: seq<Tree>, rows: seq<Row>)
    requires k < |q.withs| && q.withs[k].edge.M2M? && WellTyped(q) && Loadable(db, q.withs[k].sub)
    requires DistinctPairs(db.Pairs(q.withs[k].edge.join))
    requires Decoded(q, fields, nodes, rows) && nodes != []
    ensures EdgeAgrees(db, q, nodes, rows, k) <==>
            FairJoin(db, q.withs[k], IdList(nodes)) || BothFail(db, q, nodes, rows, k)
  {
    var w, ids := q.withs[k], IdList(nodes);
    var sub := w.sub;
    var cfg := sub.cfg.Where(JoinIn(w.edge.join, ids));
    assert FitsEdge(q.entity, w) && Joinable(db, w);
    IdsAreRead(q, fields, nodes, rows);
    JoinRowsAreCut(db, w, ids);
    var shown := FirstOfEach(JoinRows(db, sub.entity, cfg), {});
    LoadRefines(db, sub, cfg, shown);
    var r := if ValidFields(sub.entity, cfg) then RefTrees(db, sub, cfg, shown) else Err(InvalidField);
    assert BatchConfig(w, nodes) == cfg && BatchJoined(db, sub, cfg) == r;
    if r.Err? {
      M2MBothFail(db, q, fields, k, nodes, rows);
    } else {
      JoinedExactly(db, w, ids, r.value);
      M2MAgreement(db, q, fields, k, nodes, rows, r.value);
    }
  }

  /** With valid selections, an M2M edge under a window is loaded as it is looked up if and
      only if its join rows are fair. */
  lemma M2MWindowExactly(db: Database, q: Query, fields: seq<string>, k: nat, nodes: seq<Tree>, rows: seq<Row>)
    requires k < |q.withs| && q.withs[k].edge.M2M? && WellTyped(q)
    requires Loadable(db, q.withs[k].sub) && Selectable(q.withs[k].sub)
    requires DistinctPairs(db.Pairs(q.withs[k].edge.join))
    requires Decoded(q, fields, nodes, rows) && nodes != []
    ensures EdgeAgrees(db, q, nodes, rows, k) <==> FairJoin(db, q.withs[k], IdList(nodes))
  {
    M2MWindowOrFailure(db, q, fields, k, nodes, rows);
    NotBothFail(db, q, nodes, rows, k);
  }

  lemma M2MBothFail(db: Database, q: Query, fields: seq<string>, k: nat, nodes: seq<Tree>, rows: seq<Row>)
    requires k < |q.withs| && Joinable(db, q.withs[k]) && WellTyped(q) && q.entity.hasId
    requires Decoded(q, fields, nodes, rows) && nodes != []
    requires BatchEdge(db, q.withs[k], nodes) == Err(InvalidField)
    requires var w := q.withs[k];
             var cfg := w.sub.cfg.Where(JoinIn(w.edge.join, IdList(nodes)));
             !ValidFields(w.sub.entity, cfg) || RefTrees(db, w.sub, cfg, FirstOfEach(JoinRows(db, w.sub.entity, cfg), {})).Err?
    ensures EdgeAgrees(db, q, nodes, rows, k) <==> BothFail(db, q, nodes, rows, k)
    ensures FairJoin(db, q.withs[k], IdList(nodes)) ==> BothFail(db, q, nodes, rows, k)
  {
    var w := q.withs[k];
    var rs := RefEdgeAll(db, w, nodes, rows);
    assert forall i :: 0 <= i < |rows| ==> (rs[i].Err? <==> Lookup(db, w, rows[i]).Err?);
    if FairJoin(db, w, IdList(nodes)) {
      IdsAreRead(q, fields, nodes, rows);
      var id := FairJoinFailure(db, w, IdList(nodes));
      var i :| 0 <= i < |nodes| && IdList(nodes)[i] == id;
      assert Lookup(db, w, rows[i]).Err?;
    }
  }

  lemma M2MAgreement(db: Database, q: Query, fields: seq<string>, k: nat, nodes: seq<Tree>, rows: seq<Row>, ns: seq<Tree>)
    requires k < |q.withs| && q.withs[k].edge.M2M? && WellTyped(q) && q.entity.hasId && Decoded(q, fields, nodes, rows)
    requires var w := q.withs[k]; BatchJoined(db, w.sub, w.sub.cfg.Where(JoinIn(w.edge.join, IdList(nodes)))) == Ok(ns)
    ensures EdgeAgrees(db, q, nodes, rows, k) <==> JoinsLookedUp(db, q.withs[k], IdList(nodes), ns)
  {
    var w, ids := q.withs[k], IdList(nodes);
    var js := JoinRows(db, w.sub.entity, w.sub.cfg.Where(JoinIn(w.edge.join, ids)));
    IdsAreRead(q, fields, nodes, rows);
    var rs := RefEdgeAll(db, w, nodes, rows);
    forall i | 0 <= i < |nodes|
      ensures rs[i] == Ok(AttachJoined(nodes[i], w.edge, ns, js)) <==>
              RefAll(db, w.sub, w.sub.cfg.Where(Linked(db.Pairs(w.edge.join), [ids[i]]))) == Ok(KeepJoined(ns, js, ids[i]))
    {
      SameList(nodes[i], w.edge, Lookup(db, w, rows[i]), KeepJoined(ns, js, ids[i]));
    }
  }
}
