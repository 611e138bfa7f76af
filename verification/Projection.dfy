/**
  Selecting fields, anywhere in a tree of builders, changes which columns the nodes
  show and nothing else: the edges are those of the query without any selection.
 */
module Projection {
  import opened Store
  import opened EagerLoad
  import opened Refinement

  /** The same tree of builders without any selected fields. */
  function Unselected(q: Query): (u: Query)
    ensures u.entity == q.entity && u.cfg == q.cfg.(fields := []) && |u.withs| == |q.withs|
    ensures forall k :: 0 <= k < |q.withs| ==> u.withs[k] == With(q.withs[k].edge, Unselected(q.withs[k].sub))
  {
    Query(q.entity, q.cfg.(fields := []), seq(|q.withs|, k requires 0 <= k < |q.withs| =>
      With(q.withs[k].edge, Unselected(q.withs[k].sub))))
  }

  /** Every nested selection names columns, and no entity names two edges alike. */
  predicate Selectable(q: Query) {
    && ValidFields(q.entity, q.cfg) && DistinctNames(q)
    && forall k :: 0 <= k < |q.withs| ==> Selectable(q.withs[k].sub)
  }

  /** A node is the other one seen through the selection: its columns are those that
      the selection reads, and its edges lead to the same neighbors, in the same order,
      seen through the selections of the nested builders. */
  ghost predicate SeenThrough(q: Query, fields: seq<string>, full: Tree, t: Tree)
    decreases q, 1
  {
    && t.row == Project(full.row, Columns(q, fields)) && t.loaded == full.loaded
    && t.one.Keys == full.one.Keys && t.many.Keys == full.many.Keys
    && forall k :: 0 <= k < |q.withs| ==> EdgeSeenThrough(q.withs[k], full, t)
  }

  ghost predicate EdgeSeenThrough(w: With, full: Tree, t: Tree)
    decreases w, 0
  {
    match w.edge
    case M2O(name, _, _) =>
      name in t.one && name in full.one ==> SeenThrough(w.sub, w.sub.cfg.fields, full.one[name], t.one[name])
    case O2M(name, fk, _) =>
      name in t.many && name in full.many ==> ListSeenThrough(w.sub, w.sub.cfg.Force(fk).fields, full.many[name], t.many[name])
    case M2M(name, _) =>
      name in t.many && name in full.many ==> ListSeenThrough(w.sub, w.sub.cfg.fields, full.many[name], t.many[name])
  }

  ghost predicate ListSeenThrough(q: Query, fields: seq<string>, fulls: seq<Tree>, ts: seq<Tree>)
    decreases q, 2
  {
    |ts| == |fulls| && forall i :: 0 <= i < |ts| ==> SeenThrough(q, fields, fulls[i], ts[i])
  }

  /******* One node at a time *******/

  /** Only columns of the entity are read. */
  lemma ColumnsAreColumns(q: Query, cfg: Config)
    requires WellTyped(q) && ValidFields(q.entity, cfg)
    ensures forall c :: c in Columns(q, cfg.fields) ==> c in q.entity.columns
  {
    ColumnsExactly(q, cfg.fields);
    forall k | 0 <= k < |q.withs| && EdgesOf(q)[k].M2O? ensures EdgesOf(q)[k].fk in q.entity.columns {
      assert FitsEdge(q.entity, q.withs[k]);
    }
  }

  lemma BareSeenThrough(q: Query, cfg: Config, row: Row)
    requires WellTyped(q) && ValidFields(q.entity, cfg)
    ensures SeenThrough(q, cfg.fields, Bare(Unselected(q), cfg.(fields := []), row), Bare(q, cfg, row))
  {
    ColumnsAreColumns(q, cfg);
    assert EdgesOf(Unselected(q)) == EdgesOf(q);
    assert Project(Project(row, q.entity.columns), Columns(q, cfg.fields)) == Project(row, Columns(q, cfg.fields));
  }

  lemma AllSeenThrough(db: Database, q: Query, cfg: Config)
    requires WellTyped(q) && Selectable(q.(cfg := cfg))
    ensures var all := RefAll(db, Unselected(q), cfg.(fields := []));
            var some := RefAll(db, q, cfg);
            all.Ok? && some.Ok? && ListSeenThrough(q, cfg.fields, all.value, some.value)
    decreases q, 3, 0
  {
    var rows := Rows(db, q.entity, cfg);
    assert Matching(db, q.entity, cfg.(fields := [])) == Matching(db, q.entity, cfg);
    TreesSeenThrough(db, q, cfg, rows);
  }

  lemma {:induction false} TreesSeenThrough(db: Database, q: Query, cfg: Config, rows: seq<Row>)
    requires WellTyped(q) && Selectable(q.(cfg := cfg))
    ensures var all := RefTrees(db, Unselected(q), cfg.(fields := []), rows);
            var some := RefTrees(db, q, cfg, rows);
            all.Ok? && some.Ok? && ListSeenThrough(q, cfg.fields, all.value, some.value)
    decreases q, 2, |rows|
  {
    if rows != [] {
      BareSeenThrough(q, cfg, rows[0]);
      EdgesSeenThrough(db, q, cfg.fields, Bare(Unselected(q), cfg.(fields := []), rows[0]), Bare(q, cfg, rows[0]), rows[0], 0);
      TreesSeenThrough(db, q, cfg, rows[1..]);
    }
  }

  lemma {:induction false} EdgesSeenThrough(
    db: Database, q: Query, fields: seq<string>, full: Tree, t: Tree, row: Row, k: nat)
    requires WellTyped(q) && DistinctNames(q) && k <= |q.withs|
    requires forall j :: 0 <= j < |q.withs| ==> Selectable(q.withs[j].sub)
    requires SeenThrough(q, fields, full, t)
    ensures var all := RefEdges(db, Unselected(q), full, row, k);
            var some := RefEdges(db, q, t, row, k);
            all.Ok? && some.Ok? && SeenThrough(q, fields, all.value, some.value)
    decreases q, 1, |q.withs| - k
  {
    if k < |q.withs| {
      var w := q.withs[k];
      var w' := Unselected(q).withs[k];
      StepSeenThrough(db, q, fields, full, t, row, k);
      EdgesSeenThrough(db, q, fields, RefEdge(db, w', full, row).value, RefEdge(db, w, t, row).value, row, k + 1);
    }
  }

  lemma StepSeenThrough(db: Database, q: Query, fields: seq<string>, full: Tree, t: Tree, row: Row, k: nat)
    requires WellTyped(q) && DistinctNames(q) && k < |q.withs|
    requires Selectable(q.withs[k].sub) && SeenThrough(q, fields, full, t)
    ensures SameNeighbors(db, q.withs[k], full, t, row)
    ensures SeenThrough(q, fields, RefEdge(db, Unselected(q).withs[k], full, row).value, RefEdge(db, q.withs[k], t, row).value)
    decreases q, 0, 0
  {
    var w := q.withs[k];
    var w' := Unselected(q).withs[k];
    assert WellTyped(w.sub) && FitsEdge(q.entity, w) && EdgeSeenThrough(w, full, t);
    NeighborsSeenThrough(db, w, full, t, row);
    OnlyOneEdge(db, w, t, row);
    OnlyOneEdge(db, w', full, row);
    var full', t' := RefEdge(db, w', full, row).value, RefEdge(db, w, t, row).value;
    forall j | 0 <= j < |q.withs| ensures EdgeSeenThrough(q.withs[j], full', t') {
      if j != k {
        assert q.withs[j].edge.name != w.edge.name;
        assert EdgeSeenThrough(q.withs[j], full, t);
        OtherEdge(q.withs[j], w.edge.name, full, t, full', t');
      }
    }
  }

  /** Nothing but the neighbors of one edge changes. */
  ghost predicate OnlyEdge(name: string, t: Tree, t': Tree) {
    && t'.row == t.row && t'.loaded == t.loaded
    && t'.one.Keys - {name} == t.one.Keys - {name} && t'.many.Keys - {name} == t.many.Keys - {name}
    && (forall n :: n in t.one && n != name ==> n in t'.one && t'.one[n] == t.one[n])
    && (forall n :: n in t.many && n != name ==> n in t'.many && t'.many[n] == t.many[n])
  }

  lemma OnlyOneEdge(db: Database, w: With, t: Tree, row: Row)
    requires RefEdge(db, w, t, row).Ok?
    ensures OnlyEdge(w.edge.name, t, RefEdge(db, w, t, row).value)
  {
  }

  lemma OtherEdge(v: With, other: string, full: Tree, t: Tree, full': Tree, t': Tree)
    requires v.edge.name != other && EdgeSeenThrough(v, full, t)
    requires OnlyEdge(other, full, full') && OnlyEdge(other, t, t')
    ensures EdgeSeenThrough(v, full', t')
  {
    var name := v.edge.name;
    assert name in t'.one ==> name in t'.one.Keys - {other};
    assert name in full'.one ==> name in full'.one.Keys - {other};
    assert name in t'.many ==> name in t'.many.Keys - {other};
    assert name in full'.many ==> name in full'.many.Keys - {other};
  }

  /** The lookup of one edge succeeds both ways and finds the same neighbors. */
  ghost predicate SameNeighbors(db: Database, w: With, full: Tree, t: Tree, row: Row) {
    var all := RefEdge(db, With(w.edge, Unselected(w.sub)), full, row);
    var some := RefEdge(db, w, t, row);
    && all.Ok? && some.Ok? && EdgeSeenThrough(w, all.value, some.value)
    && some.value.one.Keys == all.value.one.Keys && some.value.many.Keys == all.value.many.Keys
  }

  lemma NeighborsSeenThrough(db: Database, w: With, full: Tree, t: Tree, row: Row)
    requires WellTyped(w.sub) && Selectable(w.sub) && (w.edge.O2M? ==> w.edge.fk in w.sub.entity.columns)
    requires t.one.Keys == full.one.Keys && t.many.Keys == full.many.Keys && EdgeSeenThrough(w, full, t)
    ensures SameNeighbors(db, w, full, t, row)
    decreases w, 1
  {
    match w.edge
    case M2O(_, _, _) => UniqueSeenThrough(db, w, full, t, row);
    case O2M(_, _, _) => ChildrenSeenThrough(db, w, full, t, row);
    case M2M(_, _) => JoinedSeenThrough(db, w, full, t, row);
  }

  lemma UniqueSeenThrough(db: Database, w: With, full: Tree, t: Tree, row: Row)
    requires w.edge.M2O? && WellTyped(w.sub) && Selectable(w.sub)
    requires t.one.Keys == full.one.Keys && t.many.Keys == full.many.Keys && EdgeSeenThrough(w, full, t)
    ensures SameNeighbors(db, w, full, t, row)
    decreases w, 0
  {
    var key := ForeignKey(row, w.edge.fk, w.edge.required);
    if key.Some? {
      var cfg := w.sub.cfg.Where(ColIn(ID, [key.value]));
      assert Selectable(w.sub.(cfg := cfg));
      AllSeenThrough(db, w.sub, cfg);
      var all, some := RefAll(db, Unselected(w.sub), cfg.(fields := [])).value, RefAll(db, w.sub, cfg).value;
      assert Unselected(w.sub).cfg.Where(ColIn(ID, [key.value])) == cfg.(fields := []);
      assert RefEdge(db, With(w.edge, Unselected(w.sub)), full, row) == Ok(Attach(full, w.edge, all));
      assert RefEdge(db, w, t, row) == Ok(Attach(t, w.edge, some));
      LastSeenThrough(w, full, t, all, some);
    }
  }

  lemma LastSeenThrough(w: With, full: Tree, t: Tree, all: seq<Tree>, some: seq<Tree>)
    requires w.edge.M2O? && ListSeenThrough(w.sub, w.sub.cfg.fields, all, some)
    requires t.one.Keys == full.one.Keys && EdgeSeenThrough(w, full, t)
    ensures EdgeSeenThrough(w, Attach(full, w.edge, all), Attach(t, w.edge, some))
    ensures Attach(t, w.edge, some).one.Keys == Attach(full, w.edge, all).one.Keys
  {
  }

  lemma ChildrenSeenThrough(db: Database, w: With, full: Tree, t: Tree, row: Row)
    requires w.edge.O2M? && WellTyped(w.sub) && Selectable(w.sub) && w.edge.fk in w.sub.entity.columns
    requires t.one.Keys == full.one.Keys && t.many.Keys == full.many.Keys
    ensures SameNeighbors(db, w, full, t, row)
    decreases w, 0
  {
    var fk := w.edge.fk;
    var cfg := w.sub.cfg.Force(fk).Where(ColIn(fk, [Id(row)]));
    assert Selectable(w.sub.(cfg := cfg));
    AllSeenThrough(db, w.sub, cfg);
    var all, some := RefAll(db, Unselected(w.sub), cfg.(fields := [])).value, RefAll(db, w.sub, cfg).value;
    assert Unselected(w.sub).cfg.Force(fk).Where(ColIn(fk, [Id(row)])) == cfg.(fields := []);
    assert RefEdge(db, With(w.edge, Unselected(w.sub)), full, row) == Ok(Attach(full, w.edge, all));
    assert RefEdge(db, w, t, row) == Ok(Attach(t, w.edge, some));
    ListsSeenThrough(w, full, t, all, some);
  }

  lemma ListsSeenThrough(w: With, full: Tree, t: Tree, all: seq<Tree>, some: seq<Tree>)
    requires !w.edge.M2O?
    requires ListSeenThrough(w.sub, (if w.edge.O2M? then w.sub.cfg.Force(w.edge.fk) else w.sub.cfg).fields, all, some)
    requires t.one.Keys == full.one.Keys && t.many.Keys == full.many.Keys
    ensures EdgeSeenThrough(w, Attach(full, w.edge, all), Attach(t, w.edge, some))
    ensures Attach(t, w.edge, some).one.Keys == Attach(full, w.edge, all).one.Keys
    ensures Attach(t, w.edge, some).many.Keys == Attach(full, w.edge, all).many.Keys
  {
  }

  lemma JoinedSeenThrough(db: Database, w: With, full: Tree, t: Tree, row: Row)
    requires w.edge.M2M? && WellTyped(w.sub) && Selectable(w.sub)
    requires t.one.Keys == full.one.Keys && t.many.Keys == full.many.Keys
    ensures SameNeighbors(db, w, full, t, row)
    decreases w, 0
  {
    var cfg := w.sub.cfg.Where(Linked(db.Pairs(w.edge.join), [Id(row)]));
    assert Selectable(w.sub.(cfg := cfg));
    AllSeenThrough(db, w.sub, cfg);
    var all, some := RefAll(db, Unselected(w.sub), cfg.(fields := [])).value, RefAll(db, w.sub, cfg).value;
    assert RefEdge(db, With(w.edge, Unselected(w.sub)), full, row) == Ok(Attach(full, w.edge, all));
    assert RefEdge(db, w, t, row) == Ok(Attach(t, w.edge, some));
    ListsSeenThrough(w, full, t, all, some);
  }

  /******* In batches *******/

  lemma {:induction false} UnselectedIsLoadable(db: Database, q: Query)
    requires WellTyped(q) && Fresh(q) && NestedUnlimited(q) && Keyed(db, q)
    ensures var u := Unselected(q); WellTyped(u) && Fresh(u) && NestedUnlimited(u) && Keyed(db, u)
    decreases q
  {
    var u := Unselected(q);
    forall k | 0 <= k < |q.withs|
      ensures && FitsEdge(u.entity, u.withs[k]) && u.withs[k].sub.cfg.Unlimited()
              && var s := u.withs[k].sub; WellTyped(s) && Fresh(s) && NestedUnlimited(s) && Keyed(db, s)
    {
      assert FitsEdge(q.entity, q.withs[k]);
      UnselectedIsLoadable(db, q.withs[k].sub);
    }
  }

  /** For every valid selection of fields on the root and on the nested builders, the
      batched load succeeds, and gives the nodes and edges of the query without any
      selection, each node showing the selected columns only. */
  lemma SelectionOnlyProjects(db: Database, q: Query)
    requires WellTyped(q) && Fresh(q) && NestedUnlimited(q) && Keyed(db, q) && Selectable(q)
    ensures var all := BatchAll(db, Unselected(q), Unselected(q).cfg);
            var some := BatchAll(db, q, q.cfg);
            all.Ok? && some.Ok? && ListSeenThrough(q, q.cfg.fields, all.value, some.value)
  {
    UnselectedIsLoadable(db, q);
    BatchRefinesLookup(db, q);
    BatchRefinesLookup(db, Unselected(q));
    assert q.(cfg := q.cfg) == q;
    AllSeenThrough(db, q, q.cfg);
  }
}
