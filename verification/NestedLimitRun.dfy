/** Whole runs with a window on a nested builder. */
module NestedLimitRun {
  import opened Store
  import opened EagerLoad
  import opened Refinement
  import opened Projection
  import opened NestedLimit
  import opened NestedJoinLimit

  /** A run with one requested edge agrees with the lookup exactly if that edge does. */
  lemma OneEdgeRun(db: Database, q: Query)
    requires |q.withs| == 1 && ValidFields(q.entity, q.cfg) && Rows(db, q.entity, q.cfg) != []
    ensures var rows := Rows(db, q.entity, q.cfg);
            BatchAll(db, q, q.cfg) == RefAll(db, q, q.cfg) <==> EdgeAgrees(db, q, BareAll(q, q.cfg, rows), rows, 0)
  {
    var rows := Rows(db, q.entity, q.cfg);
    var nodes := BareAll(q, q.cfg, rows);
    var rs := RefNodes(db, q, q.cfg, rows);
    RefTreesGather(db, q, q.cfg, rows, rs);
    var es := RefEdgeAll(db, q.withs[0], nodes, rows);
    forall i | 0 <= i < |rows| ensures rs[i] == es[i] {
      assert rs[i] == RefEdges(db, q, nodes[i], rows[i], 0);
      if es[i].Ok? {
        assert RefEdges(db, q, es[i].value, rows[i], 1) == es[i];
      }
    }
    assert rs == es;
    OneEdgeBatch(db, q, rows);
    if EdgeAgrees(db, q, nodes, rows, 0) {
      GathersUnique(BatchEdge(db, q.withs[0], nodes), RefTrees(db, q, q.cfg, rows), rs);
    }
  }

  lemma OneEdgeBatch(db: Database, q: Query, rows: seq<Row>)
    requires |q.withs| == 1 && rows != []
    ensures BatchLoad(db, q, q.cfg, rows) == BatchEdge(db, q.withs[0], BareAll(q, q.cfg, rows))
  {
    var nodes := BareAll(q, q.cfg, rows);
    var r := BatchEdge(db, q.withs[0], nodes);
    if r.Ok? {
      assert BatchEdges(db, q, r.value, 1) == r;
    }
    assert BatchEdges(db, q, nodes, 0) == r;
  }

  /** For a run with one O2M edge and valid selections, under any window on the nested
      builder: it gives what the lookup gives if and only if the batch is fair. */
  lemma O2MRunExactly(db: Database, q: Query)
    requires |q.withs| == 1 && q.withs[0].edge.O2M? && WellTyped(q) && Selectable(q) && Loadable(db, q.withs[0].sub)
    requires Rows(db, q.entity, q.cfg) != []
    requires q.withs[0].sub.entity.hasId || !TwoSided(q.withs[0].sub.cfg)
    ensures BatchAll(db, q, q.cfg) == RefAll(db, q, q.cfg) <==>
            FairChildren(db, q.withs[0], BareAll(q, q.cfg, Rows(db, q.entity, q.cfg)))
  {
    var rows := Rows(db, q.entity, q.cfg);
    OneEdgeRun(db, q);
    O2MWindowExactly(db, q, q.cfg.fields, 0, BareAll(q, q.cfg, rows), rows);
  }

  lemma M2ORunExactly(db: Database, q: Query)
    requires |q.withs| == 1 && q.withs[0].edge.M2O? && WellTyped(q) && Selectable(q) && Loadable(db, q.withs[0].sub)
    requires Rows(db, q.entity, q.cfg) != []
    ensures BatchAll(db, q, q.cfg) == RefAll(db, q, q.cfg) <==>
            FairTargets(db, q.withs[0], BareAll(q, q.cfg, Rows(db, q.entity, q.cfg)))
  {
    var rows := Rows(db, q.entity, q.cfg);
    OneEdgeRun(db, q);
    M2OWindowExactly(db, q, q.cfg.fields, 0, BareAll(q, q.cfg, rows), rows);
  }

  lemma M2MRunExactly(db: Database, q: Query)
    requires |q.withs| == 1 && q.withs[0].edge.M2M? && WellTyped(q) && Selectable(q) && Loadable(db, q.withs[0].sub)
    requires DistinctPairs(db.Pairs(q.withs[0].edge.join)) && Rows(db, q.entity, q.cfg) != []
    ensures BatchAll(db, q, q.cfg) == RefAll(db, q, q.cfg) <==>
            FairJoin(db, q.withs[0], IdList(BareAll(q, q.cfg, Rows(db, q.entity, q.cfg))))
  {
    var rows := Rows(db, q.entity, q.cfg);
    OneEdgeRun(db, q);
    M2MWindowExactly(db, q, q.cfg.fields, 0, BareAll(q, q.cfg, rows), rows);
  }

  /** The same without valid selections: both ways may also fail. */
  lemma O2MRunOrFailure(db: Database, q: Query)
    requires |q.withs| == 1 && q.withs[0].edge.O2M? && WellTyped(q) && Loadable(db, q.withs[0].sub)
    requires ValidFields(q.entity, q.cfg) && Rows(db, q.entity, q.cfg) != []
    requires q.withs[0].sub.entity.hasId || !TwoSided(q.withs[0].sub.cfg)
    ensures var rows := Rows(db, q.entity, q.cfg);
            var nodes := BareAll(q, q.cfg, rows);
            BatchAll(db, q, q.cfg) == RefAll(db, q, q.cfg) <==>
            FairChildren(db, q.withs[0], nodes) || BothFail(db, q, nodes, rows, 0)
  {
    var rows := Rows(db, q.entity, q.cfg);
    OneEdgeRun(db, q);
    O2MWindowOrFailure(db, q, q.cfg.fields, 0, BareAll(q, q.cfg, rows), rows);
  }
}
