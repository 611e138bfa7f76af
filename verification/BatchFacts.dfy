/**
  Facts about batched loading that the execution of a builder relies on.
 */
module BatchFacts {
  import opened Store
  import opened EagerLoad

  /** Two trees that request the same edges of the same entity. */
  ghost predicate SameShape(q: Query, q': Query) {
    q.entity == q'.entity && q.withs == q'.withs
  }

  /** Loading from the k-th edge on depends on the edges from the k-th on. */
  lemma {:induction false} EdgesSameShape(db: Database, q: Query, q': Query, nodes: seq<Tree>, k: nat)
    requires |q.withs| == |q'.withs| && k <= |q.withs| && q.withs[k..] == q'.withs[k..]
    ensures BatchEdges(db, q, nodes, k) == BatchEdges(db, q', nodes, k)
    ensures AfterEdges(db, q, nodes, k) == AfterEdges(db, q', nodes, k)
    decreases |q.withs| - k
  {
    if k < |q.withs| {
      assert q.withs[k] == q.withs[k..][0] == q'.withs[k..][0] == q'.withs[k];
      assert q.withs[k + 1..] == q.withs[k..][1..] == q'.withs[k..][1..] == q'.withs[k + 1..];
      var r := BatchEdge(db, q.withs[k], nodes);
      if r.Ok? {
        EdgesSameShape(db, q, q', r.value, k + 1);
      }
    }
  }

  lemma LoadSameShape(db: Database, q: Query, q': Query, cfg: Config, rows: seq<Row>)
    requires SameShape(q, q')
    ensures BatchLoad(db, q, cfg, rows) == BatchLoad(db, q', cfg, rows)
    ensures AfterLoad(db, q, cfg, rows) == AfterLoad(db, q', cfg, rows)
  {
    assert EdgesOf(q) == EdgesOf(q');
    assert BareAll(q, cfg, rows) == BareAll(q', cfg, rows);
    EdgesSameShape(db, q, q', BareAll(q, cfg, rows), 0);
  }

  /** A run depends on the configuration it is given, not on the one stored. */
  lemma RunSameShape(db: Database, q: Query, q': Query, cfg: Config)
    requires SameShape(q, q')
    ensures BatchAll(db, q, cfg) == BatchAll(db, q', cfg)
    ensures AfterAll(db, q, cfg) == AfterAll(db, q', cfg)
    ensures BatchJoined(db, q, cfg) == BatchJoined(db, q', cfg)
    ensures AfterJoined(db, q, cfg) == AfterJoined(db, q', cfg)
  {
    LoadSameShape(db, q, q', cfg, Rows(db, q.entity, cfg));
    LoadSameShape(db, q, q', cfg, FirstOfEach(JoinRows(db, q.entity, cfg), {}));
  }

  /** The loaded nodes are the rows, decoded, one for one. */
  lemma LoadKeepsRows(db: Database, q: Query, cfg: Config, rows: seq<Row>)
    requires BatchLoad(db, q, cfg, rows).Ok?
    ensures var ts := BatchLoad(db, q, cfg, rows).value;
            && |ts| == |rows|
            && forall i :: 0 <= i < |ts| ==> ts[i].row == Project(rows[i], Columns(q, cfg.fields))
  {
  }

  lemma KeysAreKnown(q: Query, cfg: Config, col: string, ts: seq<Tree>, rows: seq<Row>, ids: seq<int>)
    requires WellTyped(q) && col in Columns(q, cfg.fields)
    requires |ts| == |rows|
    requires forall i :: 0 <= i < |ts| ==> ts[i].row == Project(rows[i], Columns(q, cfg.fields))
    requires forall i :: 0 <= i < |rows| ==> Holds(ColIn(col, ids), rows[i])
    ensures forall i :: 0 <= i < |ts| ==> Key(ts[i].row, col).Some? && Key(ts[i].row, col).value in ids
  {
    forall i | 0 <= i < |ts| ensures Key(ts[i].row, col).Some? && Key(ts[i].row, col).value in ids {
      assert Holds(ColIn(col, ids), rows[i]);
    }
  }

  /** The rows of a narrowed builder meet the predicate that narrowed it. */
  lemma RowsHold(db: Database, entity: Entity, cfg: Config, p: Pred)
    ensures forall r :: r in Rows(db, entity, cfg.Where(p)) ==> Holds(p, r)
  {
    var all := Matching(db, entity, cfg.Where(p));
    MatchingWhere(db, entity, cfg, p);
    SelectMembers([p], Matching(db, entity, cfg));
    forall r | r in Rows(db, entity, cfg.Where(p)) ensures Holds(p, r) {
      assert r in all;
      HoldsOne(p, r);
    }
  }

  lemma {:induction false} FirstOfEachMembers(js: seq<Joined>, seen: set<int>)
    ensures forall r :: r in FirstOfEach(js, seen) ==> exists j :: 0 <= j < |js| && js[j].row == r
    ensures forall i, j :: 0 <= i < j < |FirstOfEach(js, seen)| ==>
              Id(FirstOfEach(js, seen)[i]) != Id(FirstOfEach(js, seen)[j])
    ensures forall i :: 0 <= i < |FirstOfEach(js, seen)| ==> Id(FirstOfEach(js, seen)[i]) !in seen
  {
    if js != [] {
      var id := Id(js[0].row);
      FirstOfEachMembers(js[1..], if id in seen then seen else seen + {id});
      forall r | r in FirstOfEach(js, seen) ensures exists j :: 0 <= j < |js| && js[j].row == r {
        if r != js[0].row {
          assert r in FirstOfEach(js[1..], if id in seen then seen else seen + {id});
          var j :| 0 <= j < |js[1..]| && js[1..][j].row == r;
          assert js[j + 1].row == r;
        }
      }
    }
  }

  /** The rows of a joined builder belong to owners that were asked for. */
  lemma OwnersAreKnown(db: Database, entity: Entity, cfg: Config)
    requires |Joins(cfg.preds)| == 1 && Joins(cfg.preds)[0].JoinIn?
    ensures forall i :: 0 <= i < |JoinRows(db, entity, cfg)| ==> JoinRows(db, entity, cfg)[i].owner in Joins(cfg.preds)[0].owners
  {
    var j := Joins(cfg.preds)[0];
    var all := JoinAll(db.Pairs(j.join), j.owners, Matching(db, entity, cfg));
    JoinAllMembers(db.Pairs(j.join), j.owners, Matching(db, entity, cfg));
    WindowMembers(cfg, all);
    var js := JoinRows(db, entity, cfg);
    forall i | 0 <= i < |js| ensures js[i].owner in j.owners {
      assert js[i] in js;
      assert js[i] in all;
    }
  }
}
