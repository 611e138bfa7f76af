/**
  A limit or an offset on a nested builder counts the rows of the whole batch, not the
  rows of each node. This module says, edge kind by edge kind, exactly when loading in
  batches still agrees with looking up each node.
 */
module NestedLimit {
  import opened Options
  import opened Store
  import opened EagerLoad
  import opened Refinement
  import opened Projection
  import opened Windows

  /** A builder all of whose nested builders can be loaded in batches. */
  ghost predicate Loadable(db: Database, q: Query) {
    WellTyped(q) && Fresh(q) && NestedUnlimited(q) && Keyed(db, q)
  }

  /** The window skips and limits at once. */
  predicate TwoSided(cfg: Config) {
    cfg.Skip() > 0 && cfg.Take() > 0
  }

  /** Loading the edge for all nodes fails, and so does looking it up for one of them. */
  ghost predicate BothFail(db: Database, q: Query, nodes: seq<Tree>, rows: seq<Row>, k: nat)
    requires k < |q.withs|
  {
    BatchEdge(db, q.withs[k], nodes).Err? && exists i :: 0 <= i < |rows| && Lookup(db, q.withs[k], rows[i]).Err?
  }

  /** With valid selections no lookup fails. */
  lemma LookupSucceeds(db: Database, w: With, row: Row)
    requires WellTyped(w.sub) && Selectable(w.sub) && (w.edge.O2M? ==> w.edge.fk in w.sub.entity.columns)
    ensures Lookup(db, w, row).Ok?
  {
    match w.edge
    case M2O(_, fk, required) =>
      var key := ForeignKey(row, fk, required);
      if key.Some? {
        SelectableLooksUp(db, w.sub, w.sub.cfg.Where(ColIn(ID, [key.value])));
      }
    case O2M(_, fk, _) => SelectableLooksUp(db, w.sub, w.sub.cfg.Force(fk).Where(ColIn(fk, [Id(row)])));
    case M2M(_, join) => SelectableLooksUp(db, w.sub, w.sub.cfg.Where(Linked(db.Pairs(join), [Id(row)])));
  }

  lemma SelectableLooksUp(db: Database, q: Query, cfg: Config)
    requires WellTyped(q) && Selectable(q) && ValidFields(q.entity, cfg)
    ensures RefAll(db, q, cfg).Ok?
  {
    assert Selectable(q.(cfg := cfg));
    AllSeenThrough(db, q, cfg);
  }

  lemma NotBothFail(db: Database, q: Query, nodes: seq<Tree>, rows: seq<Row>, k: nat)
    requires k < |q.withs| && WellTyped(q) && Selectable(q.withs[k].sub)
    ensures !BothFail(db, q, nodes, rows, k)
  {
    var w := q.withs[k];
    assert WellTyped(w.sub) && FitsEdge(q.entity, w);
    forall i | 0 <= i < |rows| ensures Lookup(db, w, rows[i]).Ok? {
      LookupSucceeds(db, w, rows[i]);
    }
  }

  /******* Rows by key *******/

  function KeyAt(col: string): Row -> int {
    (r: Row) => ForeignKey(r, col, true).value
  }

  lemma {:induction false} SelectIsOf(col: string, id: int, rows: seq<Row>)
    requires forall r :: r in rows ==> Key(r, col).Some?
    ensures Select([ColIn(col, [id])], rows) == Of(KeyAt(col), rows, id)
  {
    if rows != [] {
      assert rows[0] in rows;
      HoldsOne(ColIn(col, [id]), rows[0]);
      forall r | r in rows[1..] ensures Key(r, col).Some? {
        assert r in rows;
      }
      SelectIsOf(col, id, rows[1..]);
    }
  }

  function Batch(db: Database, entity: Entity, from: Config, col: string, ids: seq<int>): seq<Row> {
    Matching(db, entity, from.Where(ColIn(col, ids)))
  }

  lemma BatchHasKeys(db: Database, entity: Entity, from: Config, col: string, ids: seq<int>)
    ensures forall r :: r in Batch(db, entity, from, col, ids) ==>
              r in Matching(db, entity, from) && Key(r, col).Some? && Key(r, col).value in ids
  {
    MatchingWhere(db, entity, from, ColIn(col, ids));
    SelectHaveKey(col, ids, Matching(db, entity, from));
  }

  /** The rows of a batch, of a node's share of it, and of the node's own lookup. */
  lemma KeyedRows(db: Database, entity: Entity, from: Config, col: string, ids: seq<int>, id: int)
    requires id in ids
    ensures var batch, skip, take := Batch(db, entity, from, col, ids), from.Skip(), from.Take();
            && Rows(db, entity, from.Where(ColIn(col, ids))) == Cut(skip, take, batch)
            && Select([ColIn(col, [id])], Cut(skip, take, batch)) == Of(KeyAt(col), Cut(skip, take, batch), id)
            && Rows(db, entity, from.Where(ColIn(col, [id]))) == Cut(skip, take, Of(KeyAt(col), batch, id))
  {
    var batch := Batch(db, entity, from, col, ids);
    var base, own := Matching(db, entity, from), ColIn(col, [id]);
    BatchHasKeys(db, entity, from, col, ids);
    WindowMembers(from, batch);
    SelectIsOf(col, id, batch);
    SelectIsOf(col, id, Cut(from.Skip(), from.Take(), batch));
    MatchingWhere(db, entity, from, ColIn(col, ids));
    MatchingWhere(db, entity, from, own);
    SelectNarrow(own, ColIn(col, ids), base);
  }

  /******* Trees tell their rows *******/

  /** Equal trees come from equally many rows, and from the same rows if these have IDs. */
  lemma TreesTellRows(db: Database, sub: Query, cfg: Config, a: seq<Row>, b: seq<Row>, base: seq<Row>)
    requires RefTrees(db, sub, cfg, a).Ok? && RefTrees(db, sub, cfg, a) == RefTrees(db, sub, cfg, b)
    requires WellTyped(sub) && (forall r :: r in a ==> r in base) && (forall r :: r in b ==> r in base)
    ensures |a| == |b|
    ensures sub.entity.hasId && UniqueIds(base) ==> a == b
  {
    TreesTellLength(db, sub, cfg, a);
    TreesTellLength(db, sub, cfg, b);
    if sub.entity.hasId && UniqueIds(base) {
      TreesTellIds(db, sub, cfg, a, b);
      SameIdsSameRows(base, a, b);
    }
  }

  lemma TreesTellLength(db: Database, sub: Query, cfg: Config, rows: seq<Row>)
    requires RefTrees(db, sub, cfg, rows).Ok?
    ensures |RefTrees(db, sub, cfg, rows).value| == |rows|
  {
    RefTreesGather(db, sub, cfg, rows, RefNodes(db, sub, cfg, rows));
  }

  lemma TreesTellIds(db: Database, sub: Query, cfg: Config, a: seq<Row>, b: seq<Row>)
    requires RefTrees(db, sub, cfg, a).Ok? && RefTrees(db, sub, cfg, a) == RefTrees(db, sub, cfg, b)
    requires WellTyped(sub) && sub.entity.hasId && |a| == |b|
    ensures forall i :: 0 <= i < |a| ==> Key(a[i], ID) == Key(b[i], ID)
  {
    ForcedColumns(sub, cfg.fields);
    RefTreesShow(db, sub, cfg, a, ID);
    RefTreesShow(db, sub, cfg, b, ID);
  }

  lemma SameIdsSameRows(base: seq<Row>, a: seq<Row>, b: seq<Row>)
    requires UniqueIds(base) && (forall r :: r in a ==> r in base) && (forall r :: r in b ==> r in base)
    requires |a| == |b| && forall i :: 0 <= i < |a| ==> Key(a[i], ID) == Key(b[i], ID)
    ensures a == b
  {
    forall i | 0 <= i < |a| ensures a[i] == b[i] {
      assert a[i] in a && b[i] in b;
      SameIdSameRow(base, a[i], b[i]);
    }
  }

  lemma SameIdSameRow(base: seq<Row>, r: Row, r': Row)
    requires UniqueIds(base) && r in base && r' in base
    ensures Id(r) == Id(r') ==> r == r'
  {
    var i :| 0 <= i < |base| && base[i] == r;
    var j :| 0 <= j < |base| && base[j] == r';
    assert i != j ==> Id(base[i]) != Id(base[j]);
  }

  /** What a node gets from the batch is what it looks up, if the rows are the same, and
      only if they are equally many, and the same if they have IDs. */
  lemma KeyedShareExactly(db: Database, sub: Query, from: Config, col: string, ids: seq<int>, id: int)
    requires WellTyped(sub) && Keyed(db, sub) && ValidFields(sub.entity, from) && id in ids
    requires var cfg := from.Where(ColIn(col, ids)); RefTrees(db, sub, cfg, Rows(db, sub.entity, cfg)).Ok?
    ensures var cfg := from.Where(ColIn(col, ids));
            var cut := Rows(db, sub.entity, cfg);
            var ns := RefTrees(db, sub, cfg, cut).value;
            var batch, key, skip, take := Batch(db, sub.entity, from, col, ids), KeyAt(col), from.Skip(), from.Take();
            && |ns| == |cut|
            && (SameShare(key, batch, skip, take, id) ==>
                  RefAll(db, sub, from.Where(ColIn(col, [id]))) == Ok(KeepAt(ColIn(col, [id]), cut, ns)))
            && (RefAll(db, sub, from.Where(ColIn(col, [id]))) == Ok(KeepAt(ColIn(col, [id]), cut, ns)) ==>
                  && |Of(key, Cut(skip, take, batch), id)| == |Cut(skip, take, Of(key, batch, id))|
                  && (sub.entity.hasId ==> SameShare(key, batch, skip, take, id)))
  {
    var cfg := from.Where(ColIn(col, ids));
    var cut := Rows(db, sub.entity, cfg);
    var own := ColIn(col, [id]);
    var batch := Batch(db, sub.entity, from, col, ids);
    var mine := Rows(db, sub.entity, from.Where(own));
    KeyedRows(db, sub.entity, from, col, ids, id);
    RefTreesSelect(db, sub, cfg, own, cut);
    SameTrees(db, sub, cfg, from.Where(own), mine);
    var ns := RefTrees(db, sub, cfg, cut).value;
    if RefAll(db, sub, from.Where(own)) == Ok(KeepAt(own, cut, ns)) {
      WindowMembers(cfg, batch);
      SelectMembers([own], cut);
      OfMembers(KeyAt(col), batch, id);
      WindowMembers(from, Of(KeyAt(col), batch, id));
      if sub.entity.hasId {
        MatchingUniqueIds(db, sub.entity, cfg);
      }
      TreesTellRows(db, sub, cfg, Select([own], cut), mine, batch);
    }
  }

  /** Every node looks up its share of the batch. */
  ghost predicate SharesLookedUp(db: Database, sub: Query, from: Config, col: string, ids: seq<int>, ns: seq<Tree>)
    requires |ns| == |Rows(db, sub.entity, from.Where(ColIn(col, ids)))|
  {
    var cut := Rows(db, sub.entity, from.Where(ColIn(col, ids)));
    forall id :: id in ids ==> RefAll(db, sub, from.Where(ColIn(col, [id]))) == Ok(KeepAt(ColIn(col, [id]), cut, ns))
  }

  lemma KeyedExactly(db: Database, sub: Query, from: Config, col: string, ids: seq<int>, ns: seq<Tree>)
    requires WellTyped(sub) && Keyed(db, sub) && ValidFields(sub.entity, from)
    requires sub.entity.hasId || !TwoSided(from)
    requires RefAll(db, sub, from.Where(ColIn(col, ids))) == Ok(ns)
    ensures |ns| == |Rows(db, sub.entity, from.Where(ColIn(col, ids)))|
    ensures SharesLookedUp(db, sub, from, col, ids, ns) <==>
            Fair(KeyAt(col), Batch(db, sub.entity, from, col, ids), from.Skip(), from.Take())
  {
    var batch, key := Batch(db, sub.entity, from, col, ids), KeyAt(col);
    var cfg := from.Where(ColIn(col, ids));
    RefTreesGather(db, sub, cfg, Rows(db, sub.entity, cfg), RefNodes(db, sub, cfg, Rows(db, sub.entity, cfg)));
    if Fair(key, batch, from.Skip(), from.Take()) {
      forall id | id in ids
        ensures RefAll(db, sub, from.Where(ColIn(col, [id]))) == Ok(KeepAt(ColIn(col, [id]), Rows(db, sub.entity, cfg), ns))
      {
        FairShares(key, batch, from.Skip(), from.Take(), id);
        KeyedShareExactly(db, sub, from, col, ids, id);
      }
    }
    if SharesLookedUp(db, sub, from, col, ids, ns) {
      SharesMakeFair(db, sub, from, col, ids, ns);
    }
  }

  lemma SharesMakeFair(db: Database, sub: Query, from: Config, col: string, ids: seq<int>, ns: seq<Tree>)
    requires WellTyped(sub) && Keyed(db, sub) && ValidFields(sub.entity, from)
    requires sub.entity.hasId || !TwoSided(from)
    requires RefAll(db, sub, from.Where(ColIn(col, ids))) == Ok(ns)
    requires |ns| == |Rows(db, sub.entity, from.Where(ColIn(col, ids)))| && SharesLookedUp(db, sub, from, col, ids, ns)
    ensures Fair(KeyAt(col), Batch(db, sub.entity, from, col, ids), from.Skip(), from.Take())
  {
    var batch, key, skip, take := Batch(db, sub.entity, from, col, ids), KeyAt(col), from.Skip(), from.Take();
    BatchHasKeys(db, sub.entity, from, col, ids);
    forall i | 0 <= i < |batch|
      ensures |Of(key, Cut(skip, take, batch), key(batch[i]))| == |Cut(skip, take, Of(key, batch, key(batch[i])))|
      ensures sub.entity.hasId ==> SameShare(key, batch, skip, take, key(batch[i]))
    {
      assert batch[i] in batch;
      KeyedShareExactly(db, sub, from, col, ids, key(batch[i]));
    }
    if sub.entity.hasId {
      MatchingUniqueIds(db, sub.entity, from.Where(ColIn(col, ids)));
    }
    SharesAreFair(key, batch, skip, take);
  }

  lemma FailingRow(db: Database, sub: Query, cfg: Config, rows: seq<Row>, row: Row)
    requires row in rows && RefNode(db, sub, cfg, row).Err?
    ensures RefTrees(db, sub, cfg, rows).Err?
  {
    var i :| 0 <= i < |rows| && rows[i] == row;
    var rs := RefNodes(db, sub, cfg, rows);
    RefTreesGather(db, sub, cfg, rows, rs);
    assert rs[i].Err?;
  }

  /** If a fair batch fails, so does the lookup of one of its nodes. */
  lemma FairFailure(db: Database, sub: Query, from: Config, col: string, ids: seq<int>) returns (id: int)
    requires ids != [] && RefAll(db, sub, from.Where(ColIn(col, ids))).Err?
    requires Fair(KeyAt(col), Batch(db, sub.entity, from, col, ids), from.Skip(), from.Take())
    ensures id in ids && RefAll(db, sub, from.Where(ColIn(col, [id]))).Err?
  {
    var cfg := from.Where(ColIn(col, ids));
    if !ValidFields(sub.entity, cfg) {
      id := ids[0];
    } else {
      var batch, cut := Batch(db, sub.entity, from, col, ids), Rows(db, sub.entity, cfg);
      var row := FailureOfBatch(db, sub, cfg, cut);
      WindowMembers(cfg, batch);
      BatchHasKeys(db, sub.entity, from, col, ids);
      id := Key(row, col).value;
      KeyedRows(db, sub.entity, from, col, ids, id);
      OfMembers(KeyAt(col), cut, id);
      FairShares(KeyAt(col), batch, from.Skip(), from.Take(), id);
      var mine := Rows(db, sub.entity, from.Where(ColIn(col, [id])));
      FailingRow(db, sub, cfg, mine, row);
      SameTrees(db, sub, cfg, from.Where(ColIn(col, [id])), mine);
    }
  }

  /******* O2M *******/

  ghost predicate FairChildren(db: Database, w: With, nodes: seq<Tree>)
    requires w.edge.O2M?
  {
    var from := w.sub.cfg.Force(w.edge.fk);
    Fair(KeyAt(w.edge.fk), Batch(db, w.sub.entity, from, w.edge.fk, IdList(nodes)), from.Skip(), from.Take())
  }

  /** Under a window, an O2M edge is loaded as it is looked up if and only if the batch is
      fair, or both ways fail. */
  lemma O2MWindowOrFailure(db: Database, q: Query, fields: seq<string>, k: nat, nodes: seq<Tree>, rows: seq<Row>)
    requires k < |q.withs| && q.withs[k].edge.O2M? && WellTyped(q) && Loadable(db, q.withs[k].sub)
    requires Decoded(q, fields, nodes, rows) && nodes != []
    requires q.withs[k].sub.entity.hasId || !TwoSided(q.withs[k].sub.cfg)
    ensures EdgeAgrees(db, q, nodes, rows, k) <==>
            FairChildren(db, q.withs[k], nodes) || BothFail(db, q, nodes, rows, k)
  {
    var w := q.withs[k];
    var sub, fk, ids := w.sub, w.edge.fk, IdList(nodes);
    var from := sub.cfg.Force(fk);
    var cfg := from.Where(ColIn(fk, ids));
    IdsAreRead(q, fields, nodes, rows);
    assert FitsEdge(q.entity, w);
    LoadRefines(db, sub, cfg, Rows(db, sub.entity, cfg));
    var r := RefAll(db, sub, cfg);
    assert BatchConfig(w, nodes) == cfg && BatchAll(db, sub, cfg) == r;
    if r.Err? {
      O2MBothFail(db, q, fields, k, nodes, rows);
    } else {
      KeyedExactly(db, sub, from, fk, ids, r.value);
      O2MAgreement(db, q, fields, k, nodes, rows, r.value);
    }
  }

  /** With valid selections, an O2M edge under a window is loaded as it is looked up if and
      only if the batch is fair. */
  lemma O2MWindowExactly(db: Database, q: Query, fields: seq<string>, k: nat, nodes: seq<Tree>, rows: seq<Row>)
    requires k < |q.withs| && q.withs[k].edge.O2M? && WellTyped(q)
    requires Loadable(db, q.withs[k].sub) && Selectable(q.withs[k].sub)
    requires Decoded(q, fields, nodes, rows) && nodes != []
    requires q.withs[k].sub.entity.hasId || !TwoSided(q.withs[k].sub.cfg)
    ensures EdgeAgrees(db, q, nodes, rows, k) <==> FairChildren(db, q.withs[k], nodes)
  {
    O2MWindowOrFailure(db, q, fields, k, nodes, rows);
    NotBothFail(db, q, nodes, rows, k);
  }

  lemma O2MBothFail(db: Database, q: Query, fields: seq<string>, k: nat, nodes: seq<Tree>, rows: seq<Row>)
    requires k < |q.withs| && q.withs[k].edge.O2M? && WellTyped(q) && q.entity.hasId
    requires Decoded(q, fields, nodes, rows) && nodes != []
    requires BatchEdge(db, q.withs[k], nodes) == Err(InvalidField)
    requires RefAll(db, q.withs[k].sub, BatchConfig(q.withs[k], nodes)).Err?
    ensures EdgeAgrees(db, q, nodes, rows, k) <==> BothFail(db, q, nodes, rows, k)
    ensures FairChildren(db, q.withs[k], nodes) ==> BothFail(db, q, nodes, rows, k)
  {
    var w := q.withs[k];
    var rs := RefEdgeAll(db, w, nodes, rows);
    assert forall i :: 0 <= i < |rows| ==> (rs[i].Err? <==> Lookup(db, w, rows[i]).Err?);
    if FairChildren(db, w, nodes) {
      IdsAreRead(q, fields, nodes, rows);
      var id := FairFailure(db, w.sub, w.sub.cfg.Force(w.edge.fk), w.edge.fk, IdList(nodes));
      var i :| 0 <= i < |nodes| && IdList(nodes)[i] == id;
      assert Lookup(db, w, rows[i]).Err?;
    }
  }

  lemma O2MAgreement(db: Database, q: Query, fields: seq<string>, k: nat, nodes: seq<Tree>, rows: seq<Row>, ns: seq<Tree>)
    requires k < |q.withs| && q.withs[k].edge.O2M? && WellTyped(q) && q.entity.hasId
    requires Decoded(q, fields, nodes, rows)
    requires var w := q.withs[k];
             var cfg := w.sub.cfg.Force(w.edge.fk).Where(ColIn(w.edge.fk, IdList(nodes)));
             && RefAll(db, w.sub, cfg) == Ok(ns) && BatchAll(db, w.sub, cfg) == Ok(ns)
             && |ns| == |Rows(db, w.sub.entity, cfg)| && w.edge.fk in w.sub.entity.columns && WellTyped(w.sub)
    ensures var w := q.withs[k];
            EdgeAgrees(db, q, nodes, rows, k) <==>
            SharesLookedUp(db, w.sub, w.sub.cfg.Force(w.edge.fk), w.edge.fk, IdList(nodes), ns)
  {
    var w := q.withs[k];
    var sub, fk, ids := w.sub, w.edge.fk, IdList(nodes);
    var from := sub.cfg.Force(fk);
    var cut := Rows(db, sub.entity, from.Where(ColIn(fk, ids)));
    IdsAreRead(q, fields, nodes, rows);
    ChildrenShow(db, w, ids, ns);
    var rs := RefEdgeAll(db, w, nodes, rows);
    forall i | 0 <= i < |nodes|
      ensures rs[i] == Ok(AttachMany(nodes[i], w.edge, ns)) <==>
              RefAll(db, sub, from.Where(ColIn(fk, [ids[i]]))) == Ok(KeepAt(ColIn(fk, [ids[i]]), cut, ns))
    {
      KeepKeyIsKeepAt(ns, cut, fk, w.edge.required, ids[i]);
      SameList(nodes[i], w.edge, Lookup(db, w, rows[i]), KeepAt(ColIn(fk, [ids[i]]), cut, ns));
    }
  }

  lemma SameList(t: Tree, e: Edge, r: Result<seq<Tree>>, list: seq<Tree>)
    requires !e.M2O?
    ensures (r.Ok? && Attach(t, e, r.value) == Attach(t, e, list)) <==> r == Ok(list)
  {
    if r.Ok? && Attach(t, e, r.value) == Attach(t, e, list) {
      assert t.many[e.name := r.value][e.name] == t.many[e.name := list][e.name];
    }
  }

  lemma ChildrenShow(db: Database, w: With, ids: seq<int>, ns: seq<Tree>)
    requires w.edge.O2M? && WellTyped(w.sub) && w.edge.fk in w.sub.entity.columns
    requires RefAll(db, w.sub, w.sub.cfg.Force(w.edge.fk).Where(ColIn(w.edge.fk, ids))) == Ok(ns)
    ensures var cut := Rows(db, w.sub.entity, w.sub.cfg.Force(w.edge.fk).Where(ColIn(w.edge.fk, ids)));
            Shows(ns, cut, w.edge.fk) && forall i :: 0 <= i < |cut| ==> Key(cut[i], w.edge.fk).Some?
  {
    var from := w.sub.cfg.Force(w.edge.fk);
    var cfg := from.Where(ColIn(w.edge.fk, ids));
    ForcedColumns(w.sub, cfg.fields);
    RefTreesShow(db, w.sub, cfg, Rows(db, w.sub.entity, cfg), w.edge.fk);
    BatchHasKeys(db, w.sub.entity, from, w.edge.fk, ids);
    WindowMembers(cfg, Batch(db, w.sub.entity, from, w.edge.fk, ids));
    var cut := Rows(db, w.sub.entity, cfg);
    forall i | 0 <= i < |cut| ensures Key(cut[i], w.edge.fk).Some? {
      assert cut[i] in cut;
    }
  }

  /******* M2O *******/

  ghost predicate FairTargets(db: Database, w: With, nodes: seq<Tree>)
    requires w.edge.M2O?
  {
    var ids := KeyList(nodes, w.edge.fk, w.edge.required);
    Fair(KeyAt(ID), Batch(db, w.sub.entity, w.sub.cfg, ID, ids), w.sub.cfg.Skip(), w.sub.cfg.Take())
  }

  lemma {:induction false} NoKeysNoBatch(col: string, rows: seq<Row>)
    ensures Select([ColIn(col, [])], rows) == []
  {
    if rows != [] {
      HoldsOne(ColIn(col, []), rows[0]);
      NoKeysNoBatch(col, rows[1..]);
    }
  }

  /** Under a window, an M2O edge is loaded as it is looked up if and only if the batch is
      fair, or both ways fail. */
  lemma M2OWindowOrFailure(db: Database, q: Query, fields: seq<string>, k: nat, nodes: seq<Tree>, rows: seq<Row>)
    requires k < |q.withs| && q.withs[k].edge.M2O? && WellTyped(q) && Loadable(db, q.withs[k].sub)
    requires Decoded(q, fields, nodes, rows)
    requires forall i :: 0 <= i < |nodes| ==> q.withs[k].edge.name !in nodes[i].one
    ensures EdgeAgrees(db, q, nodes, rows, k) <==>
            FairTargets(db, q.withs[k], nodes) || BothFail(db, q, nodes, rows, k)
  {
    var w := q.withs[k];
    var sub, ids := w.sub, KeyList(nodes, w.edge.fk, w.edge.required);
    var cfg := sub.cfg.Where(ColIn(ID, ids));
    assert FitsEdge(q.entity, w);
    KeysAreRead(q, fields, k, nodes, rows);
    if ids == [] {
      NoTargets(db, q, fields, k, nodes, rows);
    } else {
      LoadRefines(db, sub, cfg, Rows(db, sub.entity, cfg));
      var r := RefAll(db, sub, cfg);
      assert BatchConfig(w, nodes) == cfg && BatchAll(db, sub, cfg) == r;
      if r.Err? {
        M2OBothFail(db, q, fields, k, nodes, rows);
      } else {
        KeyedExactly(db, sub, sub.cfg, ID, ids, r.value);
        M2OAgreement(db, q, fields, k, nodes, rows, r.value);
      }
    }
  }

  /** With valid selections, an M2O edge under a window is loaded as it is looked up if and
      only if the batch is fair. */
  lemma M2OWindowExactly(db: Database, q: Query, fields: seq<string>, k: nat, nodes: seq<Tree>, rows: seq<Row>)
    requires k < |q.withs| && q.withs[k].edge.M2O? && WellTyped(q)
    requires Loadable(db, q.withs[k].sub) && Selectable(q.withs[k].sub)
    requires Decoded(q, fields, nodes, rows)
    requires forall i :: 0 <= i < |nodes| ==> q.withs[k].edge.name !in nodes[i].one
    ensures EdgeAgrees(db, q, nodes, rows, k) <==> FairTargets(db, q.withs[k], nodes)
  {
    M2OWindowOrFailure(db, q, fields, k, nodes, rows);
    NotBothFail(db, q, nodes, rows, k);
  }

  lemma NoTargets(db: Database, q: Query, fields: seq<string>, k: nat, nodes: seq<Tree>, rows: seq<Row>)
    requires k < |q.withs| && q.withs[k].edge.M2O? && WellTyped(q) && Decoded(q, fields, nodes, rows)
    requires KeyList(nodes, q.withs[k].edge.fk, q.withs[k].edge.required) == []
    ensures EdgeAgrees(db, q, nodes, rows, k) && FairTargets(db, q.withs[k], nodes)
  {
    var w := q.withs[k];
    KeysAreRead(q, fields, k, nodes, rows);
    MatchingWhere(db, w.sub.entity, w.sub.cfg, ColIn(ID, []));
    NoKeysNoBatch(ID, Matching(db, w.sub.entity, w.sub.cfg));
    assert forall i :: 0 <= i < |rows| ==> Lookup(db, w, rows[i]) == Ok([]);
  }

  /** The keys of a batch are those that the nodes show, and they are those of their rows. */
  lemma KeysAreRead(q: Query, fields: seq<string>, k: nat, nodes: seq<Tree>, rows: seq<Row>)
    requires k < |q.withs| && q.withs[k].edge.M2O? && WellTyped(q) && Decoded(q, fields, nodes, rows)
    ensures var e := q.withs[k].edge;
            var ids := KeyList(nodes, e.fk, e.required);
            && (forall i :: 0 <= i < |nodes| ==> ForeignKey(nodes[i].row, e.fk, e.required) == ForeignKey(rows[i], e.fk, e.required))
            && (forall i :: 0 <= i < |nodes| && ForeignKey(rows[i], e.fk, e.required).Some? ==>
                  ForeignKey(rows[i], e.fk, e.required).value in ids)
            && (forall id :: id in ids ==> exists i :: 0 <= i < |nodes| && ForeignKey(rows[i], e.fk, e.required) == Some(id))
  {
    var e := q.withs[k].edge;
    ForcedColumns(q, fields);
    forall i | 0 <= i < |nodes| ensures ForeignKey(nodes[i].row, e.fk, e.required) == ForeignKey(rows[i], e.fk, e.required) {
    }
    KeyListMembers(nodes, e.fk, e.required);
    forall id | id in KeyList(nodes, e.fk, e.required)
      ensures exists i :: 0 <= i < |nodes| && ForeignKey(rows[i], e.fk, e.required) == Some(id)
    {
      var i :| 0 <= i < |nodes| && ForeignKey(nodes[i].row, e.fk, e.required) == Some(id);
      assert ForeignKey(rows[i], e.fk, e.required) == Some(id);
    }
  }

  lemma M2OBothFail(db: Database, q: Query, fields: seq<string>, k: nat, nodes: seq<Tree>, rows: seq<Row>)
    requires k < |q.withs| && q.withs[k].edge.M2O? && WellTyped(q) && Decoded(q, fields, nodes, rows)
    requires KeyList(nodes, q.withs[k].edge.fk, q.withs[k].edge.required) != []
    requires BatchEdge(db, q.withs[k], nodes) == Err(InvalidField)
    requires RefAll(db, q.withs[k].sub, BatchConfig(q.withs[k], nodes)).Err?
    ensures EdgeAgrees(db, q, nodes, rows, k) <==> BothFail(db, q, nodes, rows, k)
    ensures FairTargets(db, q.withs[k], nodes) ==> BothFail(db, q, nodes, rows, k)
  {
    var w := q.withs[k];
    var rs := RefEdgeAll(db, w, nodes, rows);
    assert forall i :: 0 <= i < |rows| ==> (rs[i].Err? <==> Lookup(db, w, rows[i]).Err?);
    if FairTargets(db, w, nodes) {
      KeysAreRead(q, fields, k, nodes, rows);
      var id := FairFailure(db, w.sub, w.sub.cfg, ID, KeyList(nodes, w.edge.fk, w.edge.required));
      var i :| 0 <= i < |nodes| && ForeignKey(rows[i], w.edge.fk, w.edge.required) == Some(id);
      assert Lookup(db, w, rows[i]).Err?;
    }
  }

  lemma AtMostOne(rows: seq<Row>, id: int)
    requires UniqueIds(rows)
    ensures |Select([ColIn(ID, [id])], rows)| <= 1
  {
    var p := ColIn(ID, [id]);
    var kept := Select([p], rows);
    SelectKeepsUniqueIds([p], rows);
    SelectMembers([p], rows);
    if |kept| > 1 {
      assert kept[0] in kept && kept[1] in kept;
      HoldsOne(p, kept[0]);
      HoldsOne(p, kept[1]);
    }
  }

  /** The unique neighbor of one node: taken from the batch, or looked up. */
  lemma TargetAgreement(db: Database, w: With, ids: seq<int>, ns: seq<Tree>, t: Tree, row: Row, id: int)
    requires w.edge.M2O? && WellTyped(w.sub) && w.sub.entity.hasId && Keyed(db, w.sub) && id in ids
    requires RefAll(db, w.sub, w.sub.cfg.Where(ColIn(ID, ids))) == Ok(ns)
    requires ForeignKey(t.row, w.edge.fk, w.edge.required) == Some(id) == ForeignKey(row, w.edge.fk, w.edge.required)
    requires w.edge.name !in t.one && |ns| == |Rows(db, w.sub.entity, w.sub.cfg.Where(ColIn(ID, ids)))|
    ensures var cut := Rows(db, w.sub.entity, w.sub.cfg.Where(ColIn(ID, ids)));
            RefEdge(db, w, t, row) == Ok(AttachOne(t, w.edge, ns)) <==>
            RefAll(db, w.sub, w.sub.cfg.Where(ColIn(ID, [id]))) == Ok(KeepAt(ColIn(ID, [id]), cut, ns))
  {
    var sub, own := w.sub, ColIn(ID, [id]);
    var cfg := sub.cfg.Where(ColIn(ID, ids));
    var cut, mine := Rows(db, sub.entity, cfg), Rows(db, sub.entity, sub.cfg.Where(own));
    TargetsShow(db, w, ids, ns);
    LastOfKeepAt(ns, cut, id);
    MatchingUniqueIds(db, sub.entity, cfg);
    MatchingUniqueIds(db, sub.entity, sub.cfg.Where(own));
    AtMostOne(cut, id);
    RefTreesSelect(db, sub, cfg, own, cut);
    RefTreesGather(db, sub, cfg, Select([own], cut), RefNodes(db, sub, cfg, Select([own], cut)));
    OwnIsOne(db, sub, id);
    var kept, looked := KeepAt(own, cut, ns), Lookup(db, w, row);
    assert AttachOne(t, w.edge, ns) == Attach(t, w.edge, kept);
    SameTarget(t, w.edge, looked, kept);
  }

  lemma SameTarget(t: Tree, e: Edge, r: Result<seq<Tree>>, list: seq<Tree>)
    requires e.M2O? && e.name !in t.one && |list| <= 1 && (r.Ok? ==> |r.value| <= 1)
    ensures (r.Ok? && Attach(t, e, r.value) == Attach(t, e, list)) <==> r == Ok(list)
  {
    if r.Ok? && Attach(t, e, r.value) == Attach(t, e, list) {
      var a, b := Attach(t, e, r.value), Attach(t, e, list);
      assert e.name in a.one <==> r.value != [];
      assert e.name in b.one <==> list != [];
      if list != [] {
        assert a.one[e.name] == r.value[0] && b.one[e.name] == list[0];
        assert r.value == [r.value[0]] && list == [list[0]];
      }
    }
  }

  lemma OwnIsOne(db: Database, sub: Query, id: int)
    requires Keyed(db, sub) && sub.entity.hasId
    ensures var r := RefAll(db, sub, sub.cfg.Where(ColIn(ID, [id]))); r.Ok? ==> |r.value| <= 1
  {
    var own := ColIn(ID, [id]);
    var cfg := sub.cfg.Where(own);
    var mine := Rows(db, sub.entity, cfg);
    MatchingWhere(db, sub.entity, sub.cfg, own);
    MatchingUniqueIds(db, sub.entity, sub.cfg);
    AtMostOne(Matching(db, sub.entity, sub.cfg), id);
    RefTreesGather(db, sub, cfg, mine, RefNodes(db, sub, cfg, mine));
  }

  lemma TargetsShow(db: Database, w: With, ids: seq<int>, ns: seq<Tree>)
    requires w.edge.M2O? && WellTyped(w.sub) && w.sub.entity.hasId
    requires RefAll(db, w.sub, w.sub.cfg.Where(ColIn(ID, ids))) == Ok(ns)
    ensures var cut := Rows(db, w.sub.entity, w.sub.cfg.Where(ColIn(ID, ids)));
            Shows(ns, cut, ID) && forall i :: 0 <= i < |cut| ==> Key(cut[i], ID).Some?
  {
    var cfg := w.sub.cfg.Where(ColIn(ID, ids));
    var cut := Rows(db, w.sub.entity, cfg);
    ForcedColumns(w.sub, cfg.fields);
    RefTreesShow(db, w.sub, cfg, cut, ID);
    BatchHasKeys(db, w.sub.entity, w.sub.cfg, ID, ids);
    WindowMembers(cfg, Batch(db, w.sub.entity, w.sub.cfg, ID, ids));
    forall i | 0 <= i < |cut| ensures Key(cut[i], ID).Some? {
      assert cut[i] in cut;
    }
  }

  /** The node looks up what it gets from the batch. */
  ghost predicate TargetLookedUp(db: Database, w: With, ids: seq<int>, ns: seq<Tree>, row: Row)
    requires w.edge.M2O? && |ns| == |Rows(db, w.sub.entity, w.sub.cfg.Where(ColIn(ID, ids)))|
  {
    var key := ForeignKey(row, w.edge.fk, w.edge.required);
    key.Some? ==>
      var own := ColIn(ID, [key.value]);
      var cut := Rows(db, w.sub.entity, w.sub.cfg.Where(ColIn(ID, ids)));
      RefAll(db, w.sub, w.sub.cfg.Where(own)) == Ok(KeepAt(own, cut, ns))
  }

  /** A batch of M2O neighbors that could be loaded. */
  ghost predicate TargetsLoaded(db: Database, w: With, ids: seq<int>, ns: seq<Tree>) {
    && w.edge.M2O? && WellTyped(w.sub) && w.sub.entity.hasId && Keyed(db, w.sub)
    && RefAll(db, w.sub, w.sub.cfg.Where(ColIn(ID, ids))) == Ok(ns)
    && |ns| == |Rows(db, w.sub.entity, w.sub.cfg.Where(ColIn(ID, ids)))|
  }

  lemma TargetNodeAgreement(db: Database, w: With, ids: seq<int>, ns: seq<Tree>, t: Tree, row: Row)
    requires TargetsLoaded(db, w, ids, ns) && w.edge.name !in t.one
    requires ForeignKey(t.row, w.edge.fk, w.edge.required) == ForeignKey(row, w.edge.fk, w.edge.required)
    requires ForeignKey(row, w.edge.fk, w.edge.required).Some? ==> ForeignKey(row, w.edge.fk, w.edge.required).value in ids
    ensures RefEdge(db, w, t, row) == Ok(AttachOne(t, w.edge, ns)) <==> TargetLookedUp(db, w, ids, ns, row)
  {
    var key := ForeignKey(row, w.edge.fk, w.edge.required);
    if key.Some? {
      TargetAgreement(db, w, ids, ns, t, row, key.value);
    } else {
      assert Lookup(db, w, row) == Ok([]);
    }
  }

  lemma AllTargetsLookedUp(db: Database, q: Query, fields: seq<string>, k: nat, nodes: seq<Tree>, rows: seq<Row>, ns: seq<Tree>)
    requires k < |q.withs| && q.withs[k].edge.M2O? && WellTyped(q) && Decoded(q, fields, nodes, rows)
    requires TargetsLoaded(db, q.withs[k], KeyList(nodes, q.withs[k].edge.fk, q.withs[k].edge.required), ns)
    ensures var w := q.withs[k];
            var ids := KeyList(nodes, w.edge.fk, w.edge.required);
            SharesLookedUp(db, w.sub, w.sub.cfg, ID, ids, ns) <==>
            forall i :: 0 <= i < |rows| ==> TargetLookedUp(db, w, ids, ns, rows[i])
  {
    var w := q.withs[k];
    var ids := KeyList(nodes, w.edge.fk, w.edge.required);
    var cut := Rows(db, w.sub.entity, w.sub.cfg.Where(ColIn(ID, ids)));
    KeysAreRead(q, fields, k, nodes, rows);
    if forall i :: 0 <= i < |rows| ==> TargetLookedUp(db, w, ids, ns, rows[i]) {
      forall id | id in ids
        ensures RefAll(db, w.sub, w.sub.cfg.Where(ColIn(ID, [id]))) == Ok(KeepAt(ColIn(ID, [id]), cut, ns))
      {
        var i :| 0 <= i < |nodes| && ForeignKey(rows[i], w.edge.fk, w.edge.required) == Some(id);
        assert TargetLookedUp(db, w, ids, ns, rows[i]);
      }
    }
  }

  lemma M2OAgreement(db: Database, q: Query, fields: seq<string>, k: nat, nodes: seq<Tree>, rows: seq<Row>, ns: seq<Tree>)
    requires k < |q.withs| && q.withs[k].edge.M2O? && WellTyped(q) && Decoded(q, fields, nodes, rows)
    requires forall i :: 0 <= i < |nodes| ==> q.withs[k].edge.name !in nodes[i].one
    requires var w := q.withs[k];
             var ids := KeyList(nodes, w.edge.fk, w.edge.required);
             ids != [] && TargetsLoaded(db, w, ids, ns) && BatchAll(db, w.sub, w.sub.cfg.Where(ColIn(ID, ids))) == Ok(ns)
    ensures var w := q.withs[k];
            EdgeAgrees(db, q, nodes, rows, k) <==>
            SharesLookedUp(db, w.sub, w.sub.cfg, ID, KeyList(nodes, w.edge.fk, w.edge.required), ns)
  {
    var w := q.withs[k];
    var ids := KeyList(nodes, w.edge.fk, w.edge.required);
    AllTargetsLookedUp(db, q, fields, k, nodes, rows, ns);
    forall i | 0 <= i < |nodes|
      ensures RefEdge(db, w, nodes[i], rows[i]) == Ok(AttachOne(nodes[i], w.edge, ns)) <==> TargetLookedUp(db, w, ids, ns, rows[i])
    {
      KeysAreRead(q, fields, k, nodes, rows);
      TargetNodeAgreement(db, w, ids, ns, nodes[i], rows[i]);
    }
    AgreesIfAttached(db, q, k, nodes, rows, ns);
  }

  lemma AgreesIfAttached(db: Database, q: Query, k: nat, nodes: seq<Tree>, rows: seq<Row>, ns: seq<Tree>)
    requires k < |q.withs| && q.withs[k].edge.M2O? && |nodes| == |rows|
    requires var w := q.withs[k];
             var ids := KeyList(nodes, w.edge.fk, w.edge.required);
             ids != [] && BatchAll(db, w.sub, w.sub.cfg.Where(ColIn(ID, ids))) == Ok(ns)
    ensures var w := q.withs[k];
            EdgeAgrees(db, q, nodes, rows, k) <==>
            forall i :: 0 <= i < |nodes| ==> RefEdge(db, w, nodes[i], rows[i]) == Ok(AttachOne(nodes[i], w.edge, ns))
  {
    var w := q.withs[k];
    var rs, r := RefEdgeAll(db, w, nodes, rows), BatchEdge(db, w, nodes);
    assert r.Ok? && forall i :: 0 <= i < |nodes| ==> r.value[i] == AttachOne(nodes[i], w.edge, ns);
    assert forall i :: 0 <= i < |nodes| ==> rs[i] == RefEdge(db, w, nodes[i], rows[i]);
  }
}
