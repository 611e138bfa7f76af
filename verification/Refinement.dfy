/**
  Batched eager loading gives every node at every depth exactly the edges that
  looking them up one node at a time gives.
 */
module Refinement {
  import opened Options
  import opened Store
  import opened EagerLoad

  /******* Collecting results *******/

  /** r collects rs: it has all the values in order, or fails if one of rs fails. */
  ghost predicate Gathers(r: Result<seq<Tree>>, rs: seq<Result<Tree>>) {
    if forall i :: 0 <= i < |rs| ==> rs[i].Ok? then
      r.Ok? && |r.value| == |rs| && forall i :: 0 <= i < |rs| ==> r.value[i] == rs[i].value
    else
      r == Err(InvalidField)
  }

  lemma GathersUnique(r: Result<seq<Tree>>, r': Result<seq<Tree>>, rs: seq<Result<Tree>>)
    requires Gathers(r, rs) && Gathers(r', rs)
    ensures r == r'
  {
    if forall i :: 0 <= i < |rs| ==> rs[i].Ok? {
      assert r.value == r'.value;
    }
  }

  lemma {:induction false} RefTreesGather(db: Database, q: Query, cfg: Config, rows: seq<Row>, rs: seq<Result<Tree>>)
    requires |rs| == |rows|
    requires forall i :: 0 <= i < |rows| ==> rs[i] == RefNode(db, q, cfg, rows[i])
    ensures Gathers(RefTrees(db, q, cfg, rows), rs)
  {
    if rows != [] {
      RefTreesGather(db, q, cfg, rows[1..], rs[1..]);
      assert rs == [rs[0]] + rs[1..];
      var rest := RefTrees(db, q, cfg, rows[1..]);
      if rs[0].Ok? && rest.Ok? {
        forall i | 0 <= i < |rs| ensures rs[i].Ok? && ([rs[0].value] + rest.value)[i] == rs[i].value {
          if i > 0 {
            assert rs[1..][i - 1] == rs[i];
          }
        }
      } else if rs[0].Ok? {
        var j :| 0 <= j < |rs[1..]| && rs[1..][j].Err?;
        assert rs[j + 1].Err?;
      }
    }
  }

  ghost function RefNodes(db: Database, q: Query, cfg: Config, rows: seq<Row>): (rs: seq<Result<Tree>>)
    ensures |rs| == |rows|
    ensures forall i :: 0 <= i < |rs| ==> rs[i] == RefNode(db, q, cfg, rows[i])
  {
    seq(|rows|, i requires 0 <= i < |rows| => RefNode(db, q, cfg, rows[i]))
  }

  /******* Selecting among loaded neighbors *******/

  /** The trees whose rows meet the predicate. */
  ghost function KeepAt(p: Pred, rows: seq<Row>, ts: seq<Tree>): seq<Tree>
    requires |rows| == |ts|
  {
    if rows == [] then []
    else
      var kept := KeepAt(p, rows[..|rows| - 1], ts[..|ts| - 1]);
      if Holds(p, rows[|rows| - 1]) then kept + [ts[|ts| - 1]] else kept
  }

  /** Loading a selection of rows gives a selection of the loaded rows. */
  lemma {:induction false} RefTreesSelect(db: Database, q: Query, cfg: Config, p: Pred, rows: seq<Row>)
    requires RefTrees(db, q, cfg, rows).Ok?
    ensures |RefTrees(db, q, cfg, rows).value| == |rows|
    ensures RefTrees(db, q, cfg, Select([p], rows)) == Ok(KeepAt(p, rows, RefTrees(db, q, cfg, rows).value))
  {
    RefTreesGather(db, q, cfg, rows, RefNodes(db, q, cfg, rows));
    if rows != [] {
      var ts := RefTrees(db, q, cfg, rows).value;
      var init, last := rows[..|rows| - 1], rows[|rows| - 1];
      RefTreesGather(db, q, cfg, init, RefNodes(db, q, cfg, init));
      RefTreesSelect(db, q, cfg, p, init);
      assert RefTrees(db, q, cfg, init).value == ts[..|ts| - 1];
      assert rows == init + [last];
      SelectSnoc(p, init, last);
      if Holds(p, last) {
        RefTreesSnoc(db, q, cfg, Select([p], init), last);
      }
    }
  }

  lemma SelectSnoc(p: Pred, rows: seq<Row>, row: Row)
    ensures Select([p], rows + [row]) == if Holds(p, row) then Select([p], rows) + [row] else Select([p], rows)
  {
    SelectConcat([p], rows, [row]);
    HoldsOne(p, row);
  }

  lemma {:induction false} RefTreesSnoc(db: Database, q: Query, cfg: Config, rows: seq<Row>, row: Row)
    requires RefTrees(db, q, cfg, rows).Ok? && RefNode(db, q, cfg, row).Ok?
    ensures RefTrees(db, q, cfg, rows + [row]) ==
            Ok(RefTrees(db, q, cfg, rows).value + [RefNode(db, q, cfg, row).value])
  {
    var last := RefNode(db, q, cfg, row).value;
    if rows == [] {
      assert rows + [row] == [row] && [row][1..] == [];
      assert RefTrees(db, q, cfg, [row][1..]) == Ok([]);
      assert RefTrees(db, q, cfg, [row]) == Ok([last] + []);
      assert [last] + [] == [] + [last];
    } else {
      RefTreesSnoc(db, q, cfg, rows[1..], row);
      assert (rows + [row])[1..] == rows[1..] + [row];
      var t, ts := RefNode(db, q, cfg, rows[0]).value, RefTrees(db, q, cfg, rows[1..]).value;
      assert [t] + (ts + [last]) == ([t] + ts) + [last];
    }
  }

  /** The heart of every loader. The batch asks for the rows that meet a wide
      predicate; a node asks for those that meet its own, narrower one. What the
      node gets is its share of the batch, and it fails only if the batch does. */
  lemma ShareOfBatch(db: Database, sub: Query, cfg: Config, base: seq<Row>, wide: Pred, own: Pred)
    requires forall r :: r in base && Holds(own, r) ==> Holds(wide, r)
    requires RefTrees(db, sub, cfg, Select([wide], base)).Ok?
    ensures |RefTrees(db, sub, cfg, Select([wide], base)).value| == |Select([wide], base)|
    ensures RefTrees(db, sub, cfg, Select([own], base)) ==
            Ok(KeepAt(own, Select([wide], base), RefTrees(db, sub, cfg, Select([wide], base)).value))
  {
    SelectNarrow(own, wide, base);
    RefTreesSelect(db, sub, cfg, own, Select([wide], base));
  }

  /** If the batch fails, it fails on a row, and whoever asks for that row fails. */
  lemma FailureOfBatch(db: Database, sub: Query, cfg: Config, rows: seq<Row>) returns (row: Row)
    requires RefTrees(db, sub, cfg, rows).Err?
    ensures row in rows && RefNode(db, sub, cfg, row).Err?
  {
    var rs := RefNodes(db, sub, cfg, rows);
    RefTreesGather(db, sub, cfg, rows, rs);
    var i :| 0 <= i < |rs| && rs[i].Err?;
    row := rows[i];
  }

  lemma FailureOfNode(db: Database, sub: Query, cfg: Config, own: Pred, base: seq<Row>, row: Row)
    requires row in base && Holds(own, row) && RefNode(db, sub, cfg, row).Err?
    ensures RefTrees(db, sub, cfg, Select([own], base)).Err?
  {
    var rows := Select([own], base);
    SelectMembers([own], base);
    HoldsOne(own, row);
    assert row in rows;
    var i :| 0 <= i < |rows| && rows[i] == row;
    var rs := RefNodes(db, sub, cfg, rows);
    RefTreesGather(db, sub, cfg, rows, rs);
    assert rs[i].Err?;
  }

  lemma UnlimitedRows(db: Database, entity: Entity, cfg: Config, p: Pred)
    requires cfg.Unlimited()
    ensures Rows(db, entity, cfg.Where(p)) == Select([p], Matching(db, entity, cfg))
  {
    MatchingWhere(db, entity, cfg, p);
    var s := Matching(db, entity, cfg.Where(p));
    assert s[0..] == s;
  }

  /******* Loaded neighbors know their keys *******/

  /** The trees are what is left of the rows after reading a column that matters. */
  ghost predicate Shows(ts: seq<Tree>, rows: seq<Row>, col: string) {
    && |ts| == |rows|
    && forall i :: 0 <= i < |ts| ==> Key(ts[i].row, col) == Key(rows[i], col)
  }

  lemma RefTreesShow(db: Database, sub: Query, cfg: Config, rows: seq<Row>, col: string)
    requires RefTrees(db, sub, cfg, rows).Ok?
    requires col in Columns(sub, cfg.fields)
    ensures Shows(RefTrees(db, sub, cfg, rows).value, rows, col)
  {
    var rs := RefNodes(db, sub, cfg, rows);
    RefTreesGather(db, sub, cfg, rows, rs);
    var ts := RefTrees(db, sub, cfg, rows).value;
    forall i | 0 <= i < |ts| ensures Key(ts[i].row, col) == Key(rows[i], col) {
      assert ts[i] == rs[i].value;
    }
  }

  lemma {:induction false} KeepKeyIsKeepAt(ns: seq<Tree>, rows: seq<Row>, fk: string, required: bool, id: int)
    requires Shows(ns, rows, fk)
    requires forall i :: 0 <= i < |rows| ==> Key(rows[i], fk).Some?
    ensures KeepKey(ns, fk, required, id) == KeepAt(ColIn(fk, [id]), rows, ns)
  {
    if ns != [] {
      KeepKeyIsKeepAt(ns[..|ns| - 1], rows[..|rows| - 1], fk, required, id);
      assert Key(ns[|ns| - 1].row, fk) == Key(rows[|rows| - 1], fk);
    }
  }

  lemma {:induction false} LastOfKeepAt(ns: seq<Tree>, rows: seq<Row>, id: int)
    requires Shows(ns, rows, ID)
    requires forall i :: 0 <= i < |rows| ==> Key(rows[i], ID).Some?
    ensures var kept := KeepAt(ColIn(ID, [id]), rows, ns);
            LastWithId(ns, id) == if kept == [] then None else Some(kept[|kept| - 1])
  {
    if ns != [] {
      LastOfKeepAt(ns[..|ns| - 1], rows[..|rows| - 1], id);
      assert Key(ns[|ns| - 1].row, ID) == Key(rows[|rows| - 1], ID);
    }
  }

  /******* Joins *******/

  lemma LinkedByPair(pairs: seq<(int, int)>, owners: seq<int>, id: int)
    ensures IsLinked(pairs, owners, id) <==> exists o :: o in owners && (o, id) in pairs
  {
    if IsLinked(pairs, owners, id) {
      var k :| 0 <= k < |pairs| && pairs[k].1 == id && pairs[k].0 in owners;
      assert pairs[k] == (pairs[k].0, id);
    }
    if exists o :: o in owners && (o, id) in pairs {
      var o :| o in owners && (o, id) in pairs;
      var k :| 0 <= k < |pairs| && pairs[k] == (o, id);
      assert pairs[k].1 == id && pairs[k].0 in owners;
    }
  }

  /** All join rows of one neighbor stand together, so only the first counts. */
  lemma {:induction false} FirstOfOne(pairs: seq<(int, int)>, owners: seq<int>, row: Row, rest: seq<Joined>, seen: set<int>)
    ensures FirstOfEach(JoinOne(pairs, owners, row) + rest, seen) ==
            if JoinOne(pairs, owners, row) == [] || Id(row) in seen then FirstOfEach(rest, seen)
            else [row] + FirstOfEach(rest, seen + {Id(row)})
  {
    var js := JoinOne(pairs, owners, row);
    if pairs == [] {
      assert js + rest == rest;
    } else if pairs[0].1 == Id(row) && pairs[0].0 in owners {
      var tail := JoinOne(pairs[1..], owners, row);
      assert (js + rest)[1..] == tail + rest;
      FirstOfOne(pairs[1..], owners, row, rest, seen);
      FirstOfOne(pairs[1..], owners, row, rest, seen + {Id(row)});
      assert seen + {Id(row)} + {Id(row)} == seen + {Id(row)};
    } else {
      FirstOfOne(pairs[1..], owners, row, rest, seen);
    }
  }

  lemma JoinedIfLinked(pairs: seq<(int, int)>, owners: seq<int>, row: Row)
    ensures JoinOne(pairs, owners, row) != [] <==> IsLinked(pairs, owners, Id(row))
  {
    var js := JoinOne(pairs, owners, row);
    JoinOneMembers(pairs, owners, row);
    LinkedByPair(pairs, owners, Id(row));
    if js != [] {
      assert js[0] in js;
    }
    if IsLinked(pairs, owners, Id(row)) {
      var o :| o in owners && (o, Id(row)) in pairs;
      assert Joined(o, row) in js;
    }
  }

  ghost predicate NoneSeen(rows: seq<Row>, seen: set<int>) {
    UniqueIds(rows) && forall i :: 0 <= i < |rows| ==> Id(rows[i]) !in seen
  }

  lemma NoneSeenNext(rows: seq<Row>, seen: set<int>)
    requires rows != [] && NoneSeen(rows, seen)
    ensures Id(rows[0]) !in seen && NoneSeen(rows[1..], seen) && NoneSeen(rows[1..], seen + {Id(rows[0])})
  {
  }

  /** De-duplicating the join rows leaves the neighbors that are joined at all. */
  lemma {:induction false} FirstOfEachIsLinked(pairs: seq<(int, int)>, owners: seq<int>, rows: seq<Row>, seen: set<int>)
    requires NoneSeen(rows, seen)
    ensures FirstOfEach(JoinAll(pairs, owners, rows), seen) == Select([Linked(pairs, owners)], rows)
  {
    if rows != [] {
      var row, own, rest := rows[0], Linked(pairs, owners), JoinAll(pairs, owners, rows[1..]);
      NoneSeenNext(rows, seen);
      FirstOfOne(pairs, owners, row, rest, seen);
      HoldsOne(own, row);
      JoinedIfLinked(pairs, owners, row);
      FirstOfEachIsLinked(pairs, owners, rows[1..], seen + {Id(row)});
      FirstOfEachIsLinked(pairs, owners, rows[1..], seen);
    }
  }

  lemma {:induction false} KeepJoinedIsKeepAt(
    ns: seq<Tree>, rows: seq<Row>, js: seq<Joined>, pairs: seq<(int, int)>, owner: int)
    requires Shows(ns, rows, ID)
    requires forall i :: 0 <= i < |rows| ==> (InJoin(js, owner, Id(rows[i])) <==> IsLinked(pairs, [owner], Id(rows[i])))
    ensures KeepJoined(ns, js, owner) == KeepAt(Linked(pairs, [owner]), rows, ns)
  {
    if ns != [] {
      KeepJoinedIsKeepAt(ns[..|ns| - 1], rows[..|rows| - 1], js, pairs, owner);
      assert Key(ns[|ns| - 1].row, ID) == Key(rows[|rows| - 1], ID);
    }
  }

  lemma InJoinIsLinked(pairs: seq<(int, int)>, owners: seq<int>, base: seq<Row>, owner: int, row: Row)
    requires owner in owners && row in base
    ensures InJoin(JoinAll(pairs, owners, base), owner, Id(row)) <==> IsLinked(pairs, [owner], Id(row))
  {
    var js := JoinAll(pairs, owners, base);
    InJoinExactly(js, owner, Id(row));
    JoinAllMembers(pairs, owners, base);
    LinkedByPair(pairs, [owner], Id(row));
    if InJoin(js, owner, Id(row)) {
      var k :| 0 <= k < |js| && js[k].owner == owner && Id(js[k].row) == Id(row);
      assert js[k] in js;
      assert owner in [owner];
    }
    if IsLinked(pairs, [owner], Id(row)) {
      assert Joined(owner, row) in js;
      var k :| 0 <= k < |js| && js[k] == Joined(owner, row);
    }
  }

  /******* One edge *******/

  /** The decoded nodes of a level and the complete rows they come from. */
  ghost predicate Decoded(q: Query, fields: seq<string>, nodes: seq<Tree>, rows: seq<Row>) {
    && |nodes| == |rows|
    && forall i :: 0 <= i < |nodes| ==> nodes[i].row == Project(rows[i], Columns(q, fields))
  }

  ghost function RefEdgeAll(db: Database, w: With, nodes: seq<Tree>, rows: seq<Row>): (rs: seq<Result<Tree>>)
    requires |nodes| == |rows|
    ensures |rs| == |rows|
    ensures forall i :: 0 <= i < |rs| ==> rs[i] == RefEdge(db, w, nodes[i], rows[i])
  {
    seq(|rows|, i requires 0 <= i < |rows| => RefEdge(db, w, nodes[i], rows[i]))
  }

  /** A lookup by one of the keys of a keyed batch gets its share of the batch. */
  lemma KeyedShare(db: Database, sub: Query, from: Config, col: string, ids: seq<int>, id: int)
    returns (wide: seq<Row>, ns: seq<Tree>)
    requires from.Unlimited() && id in ids
    requires col in Columns(sub, from.fields)
    requires RefAll(db, sub, from.Where(ColIn(col, ids))).Ok?
    ensures ns == RefAll(db, sub, from.Where(ColIn(col, ids))).value
    ensures Shows(ns, wide, col)
    ensures forall i :: 0 <= i < |wide| ==> Key(wide[i], col).Some?
    ensures RefAll(db, sub, from.Where(ColIn(col, [id]))) == Ok(KeepAt(ColIn(col, [id]), wide, ns))
  {
    var cfg := from.Where(ColIn(col, ids));
    var own := ColIn(col, [id]);
    var base := Matching(db, sub.entity, from);
    wide := Select([ColIn(col, ids)], base);
    UnlimitedRows(db, sub.entity, from, ColIn(col, ids));
    UnlimitedRows(db, sub.entity, from, own);
    SameTrees(db, sub, cfg, from.Where(own), Select([own], base));
    ns := RefTrees(db, sub, cfg, wide).value;
    ShareOfBatch(db, sub, cfg, base, ColIn(col, ids), own);
    RefTreesShow(db, sub, cfg, wide, col);
    SelectHaveKey(col, ids, base);
  }

  /** What one node gets from the batch of an M2O edge is what it looks up. */
  lemma M2ONode(db: Database, w: With, ids: seq<int>, t: Tree, row: Row)
    requires w.edge.M2O? && WellTyped(w.sub) && w.sub.entity.hasId && w.sub.cfg.Unlimited()
    requires ForeignKey(t.row, w.edge.fk, w.edge.required) == ForeignKey(row, w.edge.fk, w.edge.required)
    requires ForeignKey(row, w.edge.fk, w.edge.required).Some? ==> ForeignKey(row, w.edge.fk, w.edge.required).value in ids
    requires RefAll(db, w.sub, w.sub.cfg.Where(ColIn(ID, ids))).Ok?
    ensures RefEdge(db, w, t, row) ==
            Ok(AttachOne(t, w.edge, RefAll(db, w.sub, w.sub.cfg.Where(ColIn(ID, ids))).value))
  {
    var key := ForeignKey(row, w.edge.fk, w.edge.required);
    if key.Some? {
      ForcedColumns(w.sub, w.sub.cfg.fields);
      var wide, ns := KeyedShare(db, w.sub, w.sub.cfg, ID, ids, key.value);
      LastOfKeepAt(ns, wide, key.value);
    }
  }

  lemma SelectHaveKey(col: string, ids: seq<int>, base: seq<Row>)
    ensures forall r :: r in Select([ColIn(col, ids)], base) ==> r in base && Key(r, col).Some? && Key(r, col).value in ids
  {
    SelectMembers([ColIn(col, ids)], base);
    forall r | r in Select([ColIn(col, ids)], base) ensures Holds(ColIn(col, ids), r) {
      HoldsOne(ColIn(col, ids), r);
    }
  }

  /** If a keyed batch fails, then so does a lookup by one of its keys. */
  lemma KeyedFailure(db: Database, sub: Query, from: Config, col: string, ids: seq<int>) returns (id: int)
    requires from.Unlimited() && ids != []
    requires RefAll(db, sub, from.Where(ColIn(col, ids))).Err?
    ensures id in ids && RefAll(db, sub, from.Where(ColIn(col, [id]))).Err?
  {
    var cfg := from.Where(ColIn(col, ids));
    if !ValidFields(sub.entity, cfg) {
      id := ids[0];
    } else {
      var base := Matching(db, sub.entity, from);
      UnlimitedRows(db, sub.entity, from, ColIn(col, ids));
      var row := FailureOfBatch(db, sub, cfg, Select([ColIn(col, ids)], base));
      SelectHaveKey(col, ids, base);
      id := Key(row, col).value;
      var own := ColIn(col, [id]);
      FailureOfNode(db, sub, cfg, own, base, row);
      UnlimitedRows(db, sub.entity, from, own);
      SameTrees(db, sub, cfg, from.Where(own), Select([own], base));
    }
  }

  lemma M2OEdge(db: Database, q: Query, fields: seq<string>, k: nat, nodes: seq<Tree>, rows: seq<Row>)
    requires k < |q.withs| && q.withs[k].edge.M2O?
    requires WellTyped(q) && q.withs[k].sub.cfg.Unlimited()
    requires Decoded(q, fields, nodes, rows)
    requires forall cfg :: BatchAll(db, q.withs[k].sub, cfg) == RefAll(db, q.withs[k].sub, cfg)
    ensures Gathers(BatchEdge(db, q.withs[k], nodes), RefEdgeAll(db, q.withs[k], nodes, rows))
  {
    var w := q.withs[k];
    var sub, fk, required := w.sub, w.edge.fk, w.edge.required;
    var rs := RefEdgeAll(db, w, nodes, rows);
    ForcedColumns(q, fields);
    assert FitsEdge(q.entity, w) && WellTyped(sub);
    forall i | 0 <= i < |nodes| ensures ForeignKey(nodes[i].row, fk, required) == ForeignKey(rows[i], fk, required) {
    }
    var ids := KeyList(nodes, fk, required);
    KeyListMembers(nodes, fk, required);
    if ids == [] {
      assert forall i :: 0 <= i < |nodes| ==> Lookup(db, w, rows[i]) == Ok([]) by {
        assert forall i :: 0 <= i < |nodes| && ForeignKey(nodes[i].row, fk, required).Some? ==>
            ForeignKey(nodes[i].row, fk, required).value in ids;
      }
    } else {
      var cfg := BatchConfig(w, nodes);
      assert cfg == sub.cfg.Where(ColIn(ID, ids));
      var r := RefAll(db, sub, cfg);
      assert BatchAll(db, sub, cfg) == r;
      if r.Err? {
        var id := KeyedFailure(db, sub, sub.cfg, ID, ids);
        var i :| 0 <= i < |nodes| && ForeignKey(nodes[i].row, fk, required) == Some(id);
        assert Lookup(db, w, rows[i]).Err?;
        assert rs[i].Err?;
      } else {
        forall i | 0 <= i < |nodes| ensures rs[i] == Ok(AttachOne(nodes[i], w.edge, r.value)) {
          M2ONode(db, w, ids, nodes[i], rows[i]);
        }
      }
    }
  }

  /** Only the selected fields of a configuration matter once the rows are known. */
  lemma {:induction false} SameTrees(db: Database, sub: Query, cfg: Config, cfg': Config, rows: seq<Row>)
    requires cfg.fields == cfg'.fields
    ensures RefTrees(db, sub, cfg, rows) == RefTrees(db, sub, cfg', rows)
  {
    if rows != [] {
      SameTrees(db, sub, cfg, cfg', rows[1..]);
      assert Bare(sub, cfg, rows[0]) == Bare(sub, cfg', rows[0]);
    }
  }

  lemma O2MNode(db: Database, w: With, ids: seq<int>, t: Tree, row: Row)
    requires w.edge.O2M? && WellTyped(w.sub) && w.edge.fk in w.sub.entity.columns && w.sub.cfg.Unlimited()
    requires Id(t.row) == Id(row) && Id(row) in ids
    requires RefAll(db, w.sub, w.sub.cfg.Force(w.edge.fk).Where(ColIn(w.edge.fk, ids))).Ok?
    ensures RefEdge(db, w, t, row) ==
            Ok(AttachMany(t, w.edge, RefAll(db, w.sub, w.sub.cfg.Force(w.edge.fk).Where(ColIn(w.edge.fk, ids))).value))
  {
    var fk := w.edge.fk;
    var forced := w.sub.cfg.Force(fk);
    ForcedColumns(w.sub, forced.fields);
    var wide, ns := KeyedShare(db, w.sub, forced, fk, ids, Id(row));
    KeepKeyIsKeepAt(ns, wide, fk, w.edge.required, Id(row));
  }

  lemma O2MEdge(db: Database, q: Query, fields: seq<string>, k: nat, nodes: seq<Tree>, rows: seq<Row>)
    requires k < |q.withs| && q.withs[k].edge.O2M?
    requires WellTyped(q) && q.withs[k].sub.cfg.Unlimited()
    requires Decoded(q, fields, nodes, rows) && nodes != []
    requires forall cfg :: BatchAll(db, q.withs[k].sub, cfg) == RefAll(db, q.withs[k].sub, cfg)
    ensures Gathers(BatchEdge(db, q.withs[k], nodes), RefEdgeAll(db, q.withs[k], nodes, rows))
  {
    var w := q.withs[k];
    var sub, fk := w.sub, w.edge.fk;
    var rs := RefEdgeAll(db, w, nodes, rows);
    assert FitsEdge(q.entity, w) && WellTyped(sub);
    var ids := IdList(nodes);
    IdsAreRead(q, fields, nodes, rows);
    var cfg := BatchConfig(w, nodes);
    assert cfg == sub.cfg.Force(fk).Where(ColIn(fk, ids));
    var r := RefAll(db, sub, cfg);
    assert BatchAll(db, sub, cfg) == r;
    if r.Err? {
      var id := KeyedFailure(db, sub, sub.cfg.Force(fk), fk, ids);
      var i :| 0 <= i < |ids| && ids[i] == id;
      assert Lookup(db, w, rows[i]).Err?;
      assert rs[i].Err?;
    } else {
      forall i | 0 <= i < |nodes| ensures rs[i] == Ok(AttachMany(nodes[i], w.edge, r.value)) {
        O2MNode(db, w, ids, nodes[i], rows[i]);
      }
    }
  }

  lemma IdsAreRead(q: Query, fields: seq<string>, nodes: seq<Tree>, rows: seq<Row>)
    requires WellTyped(q) && q.entity.hasId
    requires Decoded(q, fields, nodes, rows)
    ensures forall i :: 0 <= i < |nodes| ==> Id(nodes[i].row) == Id(rows[i]) && Id(rows[i]) in IdList(nodes)
  {
    ForcedColumns(q, fields);
    var ids := IdList(nodes);
    forall i | 0 <= i < |nodes| ensures Id(nodes[i].row) == Id(rows[i]) && Id(rows[i]) in ids {
      assert ids[i] == Id(nodes[i].row);
    }
  }

  /** The rows of a joined batch, each neighbor once. */
  ghost function JoinedRows(db: Database, w: With, ids: seq<int>): seq<Row>
    requires w.edge.M2M?
  {
    Select([Linked(db.Pairs(w.edge.join), ids)], Matching(db, w.sub.entity, w.sub.cfg))
  }

  lemma M2MNode(db: Database, w: With, cfg: Config, ids: seq<int>, t: Tree, row: Row)
    requires w.edge.M2M? && WellTyped(w.sub) && w.sub.entity.hasId && w.sub.cfg.Unlimited()
    requires cfg.fields == w.sub.cfg.fields && ValidFields(w.sub.entity, cfg)
    requires Id(t.row) == Id(row) && Id(row) in ids
    requires RefTrees(db, w.sub, cfg, JoinedRows(db, w, ids)).Ok?
    ensures RefEdge(db, w, t, row) ==
            Ok(AttachJoined(t, w.edge, RefTrees(db, w.sub, cfg, JoinedRows(db, w, ids)).value,
                            JoinAll(db.Pairs(w.edge.join), ids, Matching(db, w.sub.entity, w.sub.cfg))))
  {
    var sub, pairs := w.sub, db.Pairs(w.edge.join);
    var own := Linked(pairs, [Id(row)]);
    var base := Matching(db, sub.entity, sub.cfg);
    UnlimitedRows(db, sub.entity, sub.cfg, own);
    SameTrees(db, sub, cfg, sub.cfg.Where(own), Select([own], base));
    ForcedColumns(sub, cfg.fields);
    RefTreesShow(db, sub, cfg, JoinedRows(db, w, ids), ID);
    ShareOfJoin(db, sub, cfg, pairs, ids, base, Id(row));
    assert Lookup(db, w, row) == RefAll(db, sub, sub.cfg.Where(own));
  }

  lemma JoinedFailure(db: Database, w: With, cfg: Config, ids: seq<int>) returns (id: int)
    requires w.edge.M2M? && w.sub.cfg.Unlimited()
    requires cfg.fields == w.sub.cfg.fields && ids != []
    requires !ValidFields(w.sub.entity, cfg) || RefTrees(db, w.sub, cfg, JoinedRows(db, w, ids)).Err?
    ensures id in ids && RefAll(db, w.sub, w.sub.cfg.Where(Linked(db.Pairs(w.edge.join), [id]))).Err?
  {
    var sub, pairs := w.sub, db.Pairs(w.edge.join);
    if !ValidFields(sub.entity, cfg) {
      id := ids[0];
      assert !ValidFields(sub.entity, sub.cfg.Where(Linked(pairs, [id])));
    } else {
      var base := Matching(db, sub.entity, sub.cfg);
      var row := FailureOfBatch(db, sub, cfg, JoinedRows(db, w, ids));
      SelectMembers([Linked(pairs, ids)], base);
      HoldsOne(Linked(pairs, ids), row);
      LinkedByPair(pairs, ids, Id(row));
      id :| id in ids && (id, Id(row)) in pairs;
      var own := Linked(pairs, [id]);
      LinkedByPair(pairs, [id], Id(row));
      assert id in [id];
      FailureOfNode(db, sub, cfg, own, base, row);
      UnlimitedRows(db, sub.entity, sub.cfg, own);
      SameTrees(db, sub, cfg, sub.cfg.Where(own), Select([own], base));
    }
  }

  lemma M2MEdge(db: Database, q: Query, fields: seq<string>, k: nat, nodes: seq<Tree>, rows: seq<Row>)
    requires k < |q.withs| && q.withs[k].edge.M2M?
    requires WellTyped(q) && Keyed(db, q) && Fresh(q) && q.withs[k].sub.cfg.Unlimited()
    requires Decoded(q, fields, nodes, rows) && nodes != []
    requires forall cfg, some :: BatchLoad(db, q.withs[k].sub, cfg, some) == RefTrees(db, q.withs[k].sub, cfg, some)
    ensures Gathers(BatchEdge(db, q.withs[k], nodes), RefEdgeAll(db, q.withs[k], nodes, rows))
  {
    var w := q.withs[k];
    var sub := w.sub;
    var rs := RefEdgeAll(db, w, nodes, rows);
    assert FitsEdge(q.entity, w) && WellTyped(sub) && Keyed(db, sub) && Fresh(sub);
    var ids := IdList(nodes);
    IdsAreRead(q, fields, nodes, rows);
    var cfg := BatchConfig(w, nodes);
    var base := Matching(db, sub.entity, sub.cfg);
    JoinBase(db, sub, w.edge.join, ids);
    MatchingUniqueIds(db, sub.entity, sub.cfg);
    FirstOfEachIsLinked(db.Pairs(w.edge.join), ids, base, {});
    var r := RefTrees(db, sub, cfg, JoinedRows(db, w, ids));
    assert BatchLoad(db, sub, cfg, JoinedRows(db, w, ids)) == r;
    if !ValidFields(sub.entity, cfg) || r.Err? {
      var id := JoinedFailure(db, w, cfg, ids);
      var i :| 0 <= i < |ids| && ids[i] == id;
      assert Lookup(db, w, rows[i]).Err?;
      assert rs[i].Err?;
    } else {
      var js := JoinRows(db, sub.entity, cfg);
      forall i | 0 <= i < |nodes| ensures rs[i] == Ok(AttachJoined(nodes[i], w.edge, r.value, js)) {
        M2MNode(db, w, cfg, ids, nodes[i], rows[i]);
      }
    }
  }

  lemma JoinBase(db: Database, sub: Query, join: string, ids: seq<int>)
    requires sub.cfg.Unlimited() && Fresh(sub)
    ensures var cfg := sub.cfg.Where(JoinIn(join, ids));
            && Joins(cfg.preds) == [JoinIn(join, ids)]
            && JoinRows(db, sub.entity, cfg) == JoinAll(db.Pairs(join), ids, Matching(db, sub.entity, sub.cfg))
  {
    var p := JoinIn(join, ids);
    JoinsAppend(sub.cfg.preds, p);
    MatchingWhere(db, sub.entity, sub.cfg, p);
    var base := Matching(db, sub.entity, sub.cfg);
    SelectTrivial(p, base);
    var s := JoinAll(db.Pairs(join), ids, base);
    assert s[0..] == s;
  }

  lemma {:induction false} SelectTrivial(p: Pred, rows: seq<Row>)
    requires p.JoinIn?
    ensures Select([p], rows) == rows
  {
    if rows != [] {
      SelectTrivial(p, rows[1..]);
      HoldsOne(p, rows[0]);
    }
  }

  lemma ShareOfJoin(db: Database, sub: Query, cfg: Config, pairs: seq<(int, int)>, ids: seq<int>, base: seq<Row>, owner: int)
    requires owner in ids
    requires RefTrees(db, sub, cfg, Select([Linked(pairs, ids)], base)).Ok?
    requires Shows(RefTrees(db, sub, cfg, Select([Linked(pairs, ids)], base)).value, Select([Linked(pairs, ids)], base), ID)
    ensures RefTrees(db, sub, cfg, Select([Linked(pairs, [owner])], base)) ==
            Ok(KeepJoined(RefTrees(db, sub, cfg, Select([Linked(pairs, ids)], base)).value, JoinAll(pairs, ids, base), owner))
  {
    var wide := Select([Linked(pairs, ids)], base);
    var ns := RefTrees(db, sub, cfg, wide).value;
    forall r | r in base && Holds(Linked(pairs, [owner]), r) ensures Holds(Linked(pairs, ids), r) {
      LinkedByPair(pairs, [owner], Id(r));
      LinkedByPair(pairs, ids, Id(r));
    }
    ShareOfBatch(db, sub, cfg, base, Linked(pairs, ids), Linked(pairs, [owner]));
    SelectMembers([Linked(pairs, ids)], base);
    forall i | 0 <= i < |wide|
      ensures InJoin(JoinAll(pairs, ids, base), owner, Id(wide[i])) <==> IsLinked(pairs, [owner], Id(wide[i]))
    {
      assert wide[i] in wide;
      InJoinIsLinked(pairs, ids, base, owner, wide[i]);
    }
    KeepJoinedIsKeepAt(ns, wide, JoinAll(pairs, ids, base), pairs, owner);
  }

  /******* All edges, and the whole tree *******/

  lemma LoadRefines(db: Database, q: Query, cfg: Config, rows: seq<Row>)
    requires WellTyped(q) && Fresh(q) && NestedUnlimited(q) && Keyed(db, q)
    ensures BatchLoad(db, q, cfg, rows) == RefTrees(db, q, cfg, rows)
    decreases q, 1, 0
  {
    var rs := RefNodes(db, q, cfg, rows);
    RefTreesGather(db, q, cfg, rows, rs);
    if rows != [] {
      forall k, nodes | 0 <= k < |q.withs| && Decoded(q, cfg.fields, nodes, rows)
        ensures EdgeAgrees(db, q, nodes, rows, k)
      {
        EdgeRefines(db, q, cfg.fields, k, nodes, rows);
      }
      EdgesRefine(db, q, cfg.fields, BareAll(q, cfg, rows), rows, 0, rs);
      GathersUnique(BatchLoad(db, q, cfg, rows), RefTrees(db, q, cfg, rows), rs);
    }
  }

  /** Loading an edge for all nodes together agrees with looking it up for each. */
  ghost predicate EdgeAgrees(db: Database, q: Query, nodes: seq<Tree>, rows: seq<Row>, k: nat)
    requires k < |q.withs| && |nodes| == |rows|
  {
    Gathers(BatchEdge(db, q.withs[k], nodes), RefEdgeAll(db, q.withs[k], nodes, rows))
  }

  lemma EdgesRefine(db: Database, q: Query, fields: seq<string>, nodes: seq<Tree>, rows: seq<Row>, k: nat, rs: seq<Result<Tree>>)
    requires forall j, ns :: 0 <= j < |q.withs| && Decoded(q, fields, ns, rows) ==> EdgeAgrees(db, q, ns, rows, j)
    requires k <= |q.withs| && |rs| == |nodes| && Decoded(q, fields, nodes, rows)
    requires forall i :: 0 <= i < |rs| ==> rs[i] == RefEdges(db, q, nodes[i], rows[i], k)
    ensures Gathers(BatchEdges(db, q, nodes, k), rs)
    decreases |q.withs| - k
  {
    if k < |q.withs| {
      assert EdgeAgrees(db, q, nodes, rows, k);
      var r := BatchEdge(db, q.withs[k], nodes);
      if r.Ok? {
        EdgeLoaded(db, q, nodes, rows, k, r.value);
        EdgesRefine(db, q, fields, r.value, rows, k + 1, rs);
      }
      EdgesStep(db, q, nodes, rows, k, rs);
    }
  }

  /** One edge and then the others: if both agree with the lookup, so does the whole. */
  lemma EdgesStep(db: Database, q: Query, nodes: seq<Tree>, rows: seq<Row>, k: nat, rs: seq<Result<Tree>>)
    requires k < |q.withs| && |nodes| == |rows| == |rs|
    requires forall i :: 0 <= i < |rs| ==> rs[i] == RefEdges(db, q, nodes[i], rows[i], k)
    requires EdgeAgrees(db, q, nodes, rows, k)
    requires var r := BatchEdge(db, q.withs[k], nodes); r.Ok? ==> Gathers(BatchEdges(db, q, r.value, k + 1), rs)
    ensures Gathers(BatchEdges(db, q, nodes, k), rs)
  {
    if BatchEdge(db, q.withs[k], nodes).Err? {
      var es := RefEdgeAll(db, q.withs[k], nodes, rows);
      var i :| 0 <= i < |es| && es[i].Err?;
      assert rs[i] == Err(InvalidField);
    }
  }

  lemma EdgeLoaded(db: Database, q: Query, nodes: seq<Tree>, rows: seq<Row>, k: nat, loaded: seq<Tree>)
    requires k < |q.withs| && |nodes| == |rows|
    requires Gathers(Ok(loaded), RefEdgeAll(db, q.withs[k], nodes, rows))
    ensures |loaded| == |nodes|
    ensures forall i :: 0 <= i < |nodes| ==>
      loaded[i].row == nodes[i].row && RefEdges(db, q, nodes[i], rows[i], k) == RefEdges(db, q, loaded[i], rows[i], k + 1)
  {
    var es := RefEdgeAll(db, q.withs[k], nodes, rows);
    assert forall i :: 0 <= i < |es| ==> es[i].Ok? && loaded[i] == es[i].value;
  }

  lemma EdgeRefines(db: Database, q: Query, fields: seq<string>, k: nat, nodes: seq<Tree>, rows: seq<Row>)
    requires WellTyped(q) && Fresh(q) && NestedUnlimited(q) && Keyed(db, q)
    requires k < |q.withs|
    requires Decoded(q, fields, nodes, rows) && nodes != []
    ensures Gathers(BatchEdge(db, q.withs[k], nodes), RefEdgeAll(db, q.withs[k], nodes, rows))
    decreases q, 0, 0
  {
    var sub := q.withs[k].sub;
    forall cfg, some
      ensures BatchLoad(db, sub, cfg, some) == RefTrees(db, sub, cfg, some)
    {
      LoadRefines(db, sub, cfg, some);
    }
    match q.withs[k].edge
    case M2O(_, _, _) => M2OEdge(db, q, fields, k, nodes, rows);
    case O2M(_, _, _) => O2MEdge(db, q, fields, k, nodes, rows);
    case M2M(_, _) => M2MEdge(db, q, fields, k, nodes, rows);
  }

  /** The main theorem: for every tree of requested edges, every selection of
      fields and every database, loading in batches and looking up one node at a
      time give the same nodes with the same edges in the same order, or fail
      together. */
  lemma BatchRefinesLookup(db: Database, q: Query)
    requires WellTyped(q) && Fresh(q) && NestedUnlimited(q) && Keyed(db, q)
    ensures BatchAll(db, q, q.cfg) == RefAll(db, q, q.cfg)
  {
    LoadRefines(db, q, q.cfg, Rows(db, q.entity, q.cfg));
  }
}
