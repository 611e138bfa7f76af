/**
  Loading an edge through a nested builder that has served other nodes before: the keys
  of those nodes are still among its predicates, and so it is at every level below.
 */
module StaleEdges {
  import opened Options
  import opened Store
  import opened EagerLoad
  import opened Refinement
  import opened Projection
  import opened BatchFacts
  import opened Rerun

  /** A builder all of whose nested builders are read by key and whole. */
  predicate Reusable(q: Query) {
    NoJoinedEdges(q) && NestedUnlimited(q)
  }

  /******* Nodes whose keys were all asked for before *******/

  /** Every row of one batch has been a row of another one. */
  ghost predicate Among(nodes: seq<Tree>, earlier: seq<Tree>) {
    forall t :: t in nodes ==> InRows(t.row, earlier)
  }

  ghost predicate InRows(row: Row, nodes: seq<Tree>) {
    exists j :: 0 <= j < |nodes| && nodes[j].row == row
  }

  lemma KeysAmong(nodes: seq<Tree>, earlier: seq<Tree>, fk: string, required: bool)
    requires Among(nodes, earlier)
    ensures forall id :: id in KeyList(nodes, fk, required) ==> id in KeyList(earlier, fk, required)
  {
    KeyListMembers(nodes, fk, required);
    KeyListMembers(earlier, fk, required);
    forall id | id in KeyList(nodes, fk, required) ensures id in KeyList(earlier, fk, required) {
      var i :| 0 <= i < |nodes| && ForeignKey(nodes[i].row, fk, required) == Some(id);
      assert InRows(nodes[i].row, earlier);
      var j :| 0 <= j < |earlier| && earlier[j].row == nodes[i].row;
      assert ForeignKey(earlier[j].row, fk, required) == Some(id);
    }
  }

  lemma IdsAmong(nodes: seq<Tree>, earlier: seq<Tree>)
    requires Among(nodes, earlier)
    ensures forall id :: id in IdList(nodes) ==> id in IdList(earlier)
  {
    forall id | id in IdList(nodes) ensures id in IdList(earlier) {
      var i :| 0 <= i < |nodes| && IdList(nodes)[i] == id;
      assert InRows(nodes[i].row, earlier);
      var j :| 0 <= j < |earlier| && earlier[j].row == nodes[i].row;
      assert IdList(earlier)[j] == id;
    }
  }

  lemma SameRowsAmong(nodes: seq<Tree>, earlier: seq<Tree>, nodes': seq<Tree>, earlier': seq<Tree>)
    requires Among(nodes, earlier) && SameRows(nodes', nodes) && SameRows(earlier', earlier)
    ensures Among(nodes', earlier')
  {
    forall t | t in nodes' ensures InRows(t.row, earlier') {
      var i :| 0 <= i < |nodes'| && nodes'[i] == t;
      assert nodes[i] in nodes;
      var j :| 0 <= j < |earlier| && earlier[j].row == nodes[i].row;
      assert earlier'[j].row == t.row;
    }
  }

  lemma BareAmong(q: Query, q': Query, cfg: Config, cfg': Config, rows: seq<Row>, earlier: seq<Row>)
    requires Columns(q, cfg.fields) == Columns(q', cfg'.fields) && forall r :: r in rows ==> r in earlier
    ensures Among(BareAll(q, cfg, rows), BareAll(q', cfg', earlier))
  {
    var nodes, before := BareAll(q, cfg, rows), BareAll(q', cfg', earlier);
    forall t | t in nodes ensures InRows(t.row, before) {
      var i :| 0 <= i < |nodes| && nodes[i] == t;
      assert rows[i] in earlier;
      var j :| 0 <= j < |earlier| && earlier[j] == rows[i];
      assert before[j].row == t.row;
    }
  }

  /** Every row that has one of the later keys has one of the earlier keys. */
  ghost predicate Served(db: Database, entity: Entity, from: Config, col: string, earlier: seq<int>, later: seq<int>) {
    forall r :: r in Matching(db, entity, from) && Holds(ColIn(col, later), r) ==> Holds(ColIn(col, earlier), r)
  }

  lemma ServedRows(db: Database, entity: Entity, from: Config, col: string, earlier: seq<int>, later: seq<int>)
    requires from.Unlimited() && Served(db, entity, from, col, earlier, later)
    ensures var rows := Rows(db, entity, from.Where(ColIn(col, earlier)).Where(ColIn(col, later)));
            && rows == Rows(db, entity, from.Where(ColIn(col, later)))
            && forall r :: r in rows ==> r in Rows(db, entity, from.Where(ColIn(col, earlier)))
  {
    var base, p, p' := Matching(db, entity, from), ColIn(col, earlier), ColIn(col, later);
    UnlimitedRows(db, entity, from, p);
    UnlimitedRows(db, entity, from, p');
    UnlimitedRows(db, entity, from.Where(p), p');
    MatchingWhere(db, entity, from, p);
    SelectNarrow(p', p, base);
    SelectMembers([p'], Select([p], base));
  }

  /** The neighbors of served nodes, with everything below them, are what a fresh builder
      gives. */
  lemma UsedNeighbors(db: Database, sub: Query, from: Config, col: string, earlier: seq<int>, later: seq<int>)
    requires Reusable(sub) && from.Unlimited() && Served(db, sub.entity, from, col, earlier, later)
    ensures var narrowed := from.Where(ColIn(col, earlier));
            BatchAll(db, AfterAll(db, sub, narrowed), narrowed.Where(ColIn(col, later))) ==
            BatchAll(db, sub, from.Where(ColIn(col, later)))
    decreases sub, 2, 0
  {
    var first := from.Where(ColIn(col, earlier));
    var again, plain := first.Where(ColIn(col, later)), from.Where(ColIn(col, later));
    if ValidFields(sub.entity, from) {
      var rows, rows' := Rows(db, sub.entity, first), Rows(db, sub.entity, again);
      var after := AfterAll(db, sub, first);
      ServedRows(db, sub.entity, from, col, earlier, later);
      UsedLoad(db, sub, first, again, rows, rows');
      LoadSameShape(db, after, sub.(withs := AfterLoad(db, sub, first, rows)), again, rows');
      LoadSameFields(db, sub, again, plain, rows');
    } else {
      assert !ValidFields(sub.entity, again) && !ValidFields(sub.entity, plain);
    }
  }

  lemma UsedLoad(db: Database, q: Query, cfg: Config, cfg': Config, rows: seq<Row>, rows': seq<Row>)
    requires Reusable(q) && cfg.fields == cfg'.fields && forall r :: r in rows' ==> r in rows
    ensures BatchLoad(db, q.(withs := AfterLoad(db, q, cfg, rows)), cfg', rows') == BatchLoad(db, q, cfg', rows')
    decreases q, 1, 0
  {
    if rows' != [] {
      assert rows'[0] in rows;
      var nodes, nodes' := BareAll(q, cfg, rows), BareAll(q, cfg', rows');
      var q' := q.(withs := AfterEdges(db, q, nodes, 0));
      SameEdgesAfter(db, q, nodes);
      assert BareAll(q', cfg', rows') == nodes';
      assert q'.withs[0..] == AfterEdges(db, q, nodes, 0);
      BareAmong(q, q, cfg', cfg, rows', rows);
      UsedEdges(db, q, q', nodes, nodes', 0);
    }
  }

  lemma UsedEdges(db: Database, q: Query, q': Query, nodes: seq<Tree>, nodes': seq<Tree>, k: nat)
    requires Reusable(q) && k <= |q.withs| == |q'.withs| && Among(nodes', nodes)
    requires q'.withs[k..] == AfterEdges(db, q, nodes, k)
    ensures BatchEdges(db, q', nodes', k) == BatchEdges(db, q, nodes', k)
    decreases q, 0, |q.withs| - k
  {
    if k < |q.withs| {
      var w := q.withs[k];
      assert q'.withs[k] == q'.withs[k..][0] == With(w.edge, AfterEdge(db, w, nodes));
      assert q'.withs[k + 1..] == q'.withs[k..][1..];
      UsedEdge(db, w, nodes, nodes');
      var r, r' := BatchEdge(db, w, nodes), BatchEdge(db, w, nodes');
      if r'.Ok? && r.Ok? {
        SameRowsAmong(nodes', nodes, r'.value, r.value);
        UsedEdges(db, q, q', r.value, r'.value, k + 1);
      } else if r'.Ok? {
        EdgesSameShape(db, q', q, r'.value, k + 1);
      }
    }
  }

  lemma UsedEdge(db: Database, w: With, nodes: seq<Tree>, nodes': seq<Tree>)
    requires !w.edge.M2M? && Reusable(w.sub) && w.sub.cfg.Unlimited() && Among(nodes', nodes)
    ensures BatchEdge(db, With(w.edge, AfterEdge(db, w, nodes)), nodes') == BatchEdge(db, w, nodes')
    decreases w
  {
    match w.edge
    case M2O(_, fk, required) =>
      KeysAmong(nodes', nodes, fk, required);
      if KeyList(nodes, fk, required) == [] {
        NoneLater(KeyList(nodes, fk, required), KeyList(nodes', fk, required));
      } else {
        ServedTargets(db, w, nodes, nodes');
      }
    case O2M(_, _, _) =>
      IdsAmong(nodes', nodes);
      ServedChildren(db, w, nodes, nodes');
  }

  lemma NoneLater(earlier: seq<int>, later: seq<int>)
    requires forall id :: id in later ==> id in earlier
    ensures later != [] ==> earlier != []
  {
    if later != [] {
      var id :| id in later && id == later[0];
      assert id in earlier;
    }
  }

  lemma ServedChildren(db: Database, w: With, nodes: seq<Tree>, others: seq<Tree>)
    requires w.edge.O2M? && Reusable(w.sub) && w.sub.cfg.Unlimited()
    requires Served(db, w.sub.entity, w.sub.cfg.Force(w.edge.fk), w.edge.fk, IdList(nodes), IdList(others))
    ensures BatchEdge(db, With(w.edge, AfterEdge(db, w, nodes)), others) == BatchEdge(db, w, others)
    decreases w, 0
  {
    var fk, from := w.edge.fk, w.sub.cfg.Force(w.edge.fk);
    UsedNeighbors(db, w.sub, from, fk, IdList(nodes), IdList(others));
    UsedChildren(db, w, nodes, others);
  }

  /** The used builder, and the configuration under which it serves other nodes. */
  lemma UsedChildren(db: Database, w: With, nodes: seq<Tree>, others: seq<Tree>)
    requires w.edge.O2M?
    ensures var narrowed := w.sub.cfg.Force(w.edge.fk).Where(ColIn(w.edge.fk, IdList(nodes)));
            && AfterEdge(db, w, nodes) == AfterAll(db, w.sub, narrowed)
            && BatchConfig(With(w.edge, AfterEdge(db, w, nodes)), others) == narrowed.Where(ColIn(w.edge.fk, IdList(others)))
  {
    var from := w.sub.cfg.Force(w.edge.fk);
    assert from.Force(w.edge.fk) == from;
  }

  lemma UsedTargets(db: Database, w: With, nodes: seq<Tree>, others: seq<Tree>)
    requires w.edge.M2O? && KeyList(nodes, w.edge.fk, w.edge.required) != []
    ensures var narrowed := w.sub.cfg.Where(ColIn(ID, KeyList(nodes, w.edge.fk, w.edge.required)));
            && AfterEdge(db, w, nodes) == AfterAll(db, w.sub, narrowed)
            && BatchConfig(With(w.edge, AfterEdge(db, w, nodes)), others) ==
               narrowed.Where(ColIn(ID, KeyList(others, w.edge.fk, w.edge.required)))
  {
  }

  lemma ServedTargets(db: Database, w: With, nodes: seq<Tree>, others: seq<Tree>)
    requires w.edge.M2O? && Reusable(w.sub) && w.sub.cfg.Unlimited()
    requires var earlier := KeyList(nodes, w.edge.fk, w.edge.required);
             earlier != [] && Served(db, w.sub.entity, w.sub.cfg, ID, earlier, KeyList(others, w.edge.fk, w.edge.required))
    ensures BatchEdge(db, With(w.edge, AfterEdge(db, w, nodes)), others) == BatchEdge(db, w, others)
    decreases w, 0
  {
    var earlier, later := KeyList(nodes, w.edge.fk, w.edge.required), KeyList(others, w.edge.fk, w.edge.required);
    UsedNeighbors(db, w.sub, w.sub.cfg, ID, earlier, later);
    UsedTargets(db, w, nodes, others);
  }

  /******* Runs that succeed *******/

  /** Without M2M edges, valid selections are all that a batched run needs. */
  lemma AllLoads(db: Database, q: Query, cfg: Config)
    requires NoJoinedEdges(q) && WellTyped(q) && Selectable(q.(cfg := cfg))
    ensures BatchAll(db, q, cfg).Ok?
    decreases q, 1, 0
  {
    EdgesLoad(db, q, BareAll(q, cfg, Rows(db, q.entity, cfg)), 0);
  }

  lemma EdgesLoad(db: Database, q: Query, nodes: seq<Tree>, k: nat)
    requires NoJoinedEdges(q) && WellTyped(q) && k <= |q.withs|
    requires forall j :: 0 <= j < |q.withs| ==> Selectable(q.withs[j].sub)
    ensures BatchEdges(db, q, nodes, k).Ok?
    decreases q, 0, |q.withs| - k
  {
    if k < |q.withs| {
      assert FitsEdge(q.entity, q.withs[k]);
      EdgeLoads(db, q.withs[k], nodes);
      EdgesLoad(db, q, BatchEdge(db, q.withs[k], nodes).value, k + 1);
    }
  }

  lemma EdgeLoads(db: Database, w: With, nodes: seq<Tree>)
    requires !w.edge.M2M? && NoJoinedEdges(w.sub) && WellTyped(w.sub) && Selectable(w.sub)
    requires w.edge.O2M? ==> w.edge.fk in w.sub.entity.columns
    ensures BatchEdge(db, w, nodes).Ok?
    decreases w
  {
    var cfg := BatchConfig(w, nodes);
    assert Selectable(w.sub.(cfg := cfg));
    AllLoads(db, w.sub, cfg);
  }

  /******* O2M *******/

  /** Some row that the builder may show has the key. */
  ghost predicate HasRow(db: Database, entity: Entity, from: Config, col: string, key: int) {
    exists r :: r in Matching(db, entity, from) && Key(r, col) == Some(key)
  }

  /** Every node was served before or has no neighbor. */
  ghost predicate AllServed(db: Database, w: With, nodes: seq<Tree>, others: seq<Tree>)
    requires w.edge.O2M?
  {
    forall i :: 0 <= i < |others| ==>
      Id(others[i].row) in IdList(nodes) ||
      !HasRow(db, w.sub.entity, w.sub.cfg.Force(w.edge.fk), w.edge.fk, Id(others[i].row))
  }

  /** Then the used builder loads what a fresh one loads, at every level, or fails as it does. */
  lemma ServedLoadAlike(db: Database, w: With, nodes: seq<Tree>, others: seq<Tree>)
    requires w.edge.O2M? && Reusable(w.sub) && w.sub.cfg.Unlimited() && AllServed(db, w, nodes, others)
    ensures BatchEdge(db, With(w.edge, AfterEdge(db, w, nodes)), others) == BatchEdge(db, w, others)
  {
    var fk, from := w.edge.fk, w.sub.cfg.Force(w.edge.fk);
    forall r | r in Matching(db, w.sub.entity, from) && Holds(ColIn(fk, IdList(others)), r)
      ensures Holds(ColIn(fk, IdList(nodes)), r)
    {
      var i :| 0 <= i < |others| && IdList(others)[i] == Key(r, fk).value;
      assert HasRow(db, w.sub.entity, from, fk, Id(others[i].row));
    }
    ServedChildren(db, w, nodes, others);
  }

  lemma {:induction false} KeepKeyHas(ns: seq<Tree>, fk: string, required: bool, id: int)
    ensures KeepKey(ns, fk, required, id) != [] <==>
            exists i :: 0 <= i < |ns| && ForeignKey(ns[i].row, fk, required) == Some(id)
  {
    if ns != [] {
      var init := ns[..|ns| - 1];
      KeepKeyHas(init, fk, required, id);
      if i :| 0 <= i < |init| && ForeignKey(init[i].row, fk, required) == Some(id) {
        assert ns[i] == init[i];
      }
      if i :| 0 <= i < |ns| && ForeignKey(ns[i].row, fk, required) == Some(id) {
        assert i < |init| ==> init[i] == ns[i];
      }
    }
  }

  /** The neighbors of a key are shown, whatever edges they have themselves. */
  lemma KeyIsShown(db: Database, q: Query, from: Config, col: string, ids: seq<int>, key: int, ns: seq<Tree>)
    requires WellTyped(q) && from.Unlimited() && col in Columns(q, from.fields)
    requires BatchAll(db, q, from.Where(ColIn(col, ids))) == Ok(ns)
    requires key in ids && HasRow(db, q.entity, from, col, key)
    ensures exists i :: 0 <= i < |ns| && Key(ns[i].row, col) == Some(key)
  {
    var p := ColIn(col, ids);
    var cfg := from.Where(p);
    var rows := Rows(db, q.entity, cfg);
    LoadKeepsRows(db, q, cfg, rows);
    UnlimitedRows(db, q.entity, from, p);
    SelectMembers([p], Matching(db, q.entity, from));
    var r :| r in Matching(db, q.entity, from) && Key(r, col) == Some(key);
    HoldsOne(p, r);
    var i :| 0 <= i < |rows| && rows[i] == r;
    assert Key(ns[i].row, col) == Some(key);
  }

  /** The used builder shows no key that was not asked for before. */
  lemma OnlyEarlierShown(db: Database, sub: Query, from: Config, col: string, earlier: seq<int>, later: seq<int>, ns: seq<Tree>)
    requires from.Unlimited() && col in Columns(sub, from.fields)
    requires var narrowed := from.Where(ColIn(col, earlier));
             BatchAll(db, AfterAll(db, sub, narrowed), narrowed.Where(ColIn(col, later))) == Ok(ns)
    ensures forall i :: 0 <= i < |ns| ==> Key(ns[i].row, col).Some? && Key(ns[i].row, col).value in earlier
  {
    var p := ColIn(col, earlier);
    var narrowed := from.Where(p);
    var cfg := narrowed.Where(ColIn(col, later));
    var used, rows := AfterAll(db, sub, narrowed), Rows(db, sub.entity, cfg);
    LoadKeepsRows(db, used, cfg, rows);
    AfterKeepsColumns(db, sub, narrowed, cfg.fields);
    UnlimitedRows(db, sub.entity, narrowed, ColIn(col, later));
    MatchingWhere(db, sub.entity, from, p);
    SelectMembers([ColIn(col, later)], Matching(db, sub.entity, narrowed));
    SelectMembers([p], Matching(db, sub.entity, from));
    forall i | 0 <= i < |ns| ensures Key(ns[i].row, col).Some? && Key(ns[i].row, col).value in earlier {
      assert rows[i] in rows;
      HoldsOne(p, rows[i]);
    }
  }

  lemma AfterKeepsColumns(db: Database, q: Query, cfg: Config, fields: seq<string>)
    ensures Columns(AfterAll(db, q, cfg), fields) == Columns(q, fields)
  {
    var after, rows := AfterAll(db, q, cfg), Rows(db, q.entity, cfg);
    if ValidFields(q.entity, cfg) && rows != [] {
      SameEdgesAfter(db, q, BareAll(q, cfg, rows));
      assert EdgesOf(after) == EdgesOf(q.(withs := after.withs));
    } else {
      assert ValidFields(q.entity, cfg) ==> AfterLoad(db, q, cfg, rows) == q.withs;
      assert after.withs == q.withs;
      assert EdgesOf(after) == EdgesOf(q);
    }
  }

  /** For a node that was not served but has a neighbor, a fresh builder gives a list that
      is not empty, and the used one gives an empty list if it gives any. */
  lemma UnservedLists(db: Database, w: With, earlier: seq<int>, later: seq<int>, id: int, ns: seq<Tree>, r: Result<seq<Tree>>)
    requires w.edge.O2M? && WellTyped(w.sub) && w.edge.fk in w.sub.entity.columns && w.sub.cfg.Unlimited()
    requires id in later && id !in earlier && HasRow(db, w.sub.entity, w.sub.cfg.Force(w.edge.fk), w.edge.fk, id)
    requires var from := w.sub.cfg.Force(w.edge.fk);
             var narrowed := from.Where(ColIn(w.edge.fk, earlier));
             && BatchAll(db, w.sub, from.Where(ColIn(w.edge.fk, later))) == Ok(ns)
             && BatchAll(db, AfterAll(db, w.sub, narrowed), narrowed.Where(ColIn(w.edge.fk, later))) == r
    ensures KeepKey(ns, w.edge.fk, w.edge.required, id) != []
    ensures r.Ok? ==> KeepKey(r.value, w.edge.fk, w.edge.required, id) == []
  {
    var fk, from := w.edge.fk, w.sub.cfg.Force(w.edge.fk);
    ForcedColumns(w.sub, from.fields);
    assert fk in Columns(w.sub, from.fields);
    KeyIsShown(db, w.sub, from, fk, later, id, ns);
    KeepKeyHas(ns, fk, w.edge.required, id);
    if r.Ok? {
      OnlyEarlierShown(db, w.sub, from, fk, earlier, later, r.value);
      KeepKeyHas(r.value, fk, w.edge.required, id);
    }
  }

  lemma UnservedLoadsDiffer(db: Database, w: With, nodes: seq<Tree>, others: seq<Tree>)
    requires w.edge.O2M? && WellTyped(w.sub) && w.edge.fk in w.sub.entity.columns && w.sub.cfg.Unlimited()
    requires BatchEdge(db, w, others).Ok? && !AllServed(db, w, nodes, others)
    ensures BatchEdge(db, With(w.edge, AfterEdge(db, w, nodes)), others) != BatchEdge(db, w, others)
  {
    var w' := With(w.edge, AfterEdge(db, w, nodes));
    var i :| 0 <= i < |others| && Id(others[i].row) !in IdList(nodes) &&
             HasRow(db, w.sub.entity, w.sub.cfg.Force(w.edge.fk), w.edge.fk, Id(others[i].row));
    UsedChildren(db, w, nodes, others);
    var ns, r := BatchAll(db, w.sub, BatchConfig(w, others)).value, BatchAll(db, w'.sub, BatchConfig(w', others));
    assert IdList(others)[i] in IdList(others);
    UnservedLists(db, w, IdList(nodes), IdList(others), Id(others[i].row), ns, r);
    if r.Ok? {
      DifferentLists(db, w, w', others, i, ns, r.value);
    }
  }

  lemma DifferentLists(db: Database, w: With, w': With, nodes: seq<Tree>, i: nat, ns: seq<Tree>, ns': seq<Tree>)
    requires w.edge.O2M? && w'.edge == w.edge && i < |nodes|
    requires BatchAll(db, w.sub, BatchConfig(w, nodes)) == Ok(ns) && BatchAll(db, w'.sub, BatchConfig(w', nodes)) == Ok(ns')
    requires var id := Id(nodes[i].row);
             KeepKey(ns, w.edge.fk, w.edge.required, id) != [] == KeepKey(ns', w.edge.fk, w.edge.required, id)
    ensures BatchEdge(db, w', nodes) != BatchEdge(db, w, nodes)
  {
    var t, t' := BatchEdge(db, w, nodes).value[i], BatchEdge(db, w', nodes).value[i];
    assert t.many[w.edge.name] != t'.many[w.edge.name];
  }

  /** Through a used builder, whatever tree it is, an O2M edge is loaded as through a fresh
      one if and only if every node was served before or has no neighbor. */
  lemma StaleChildrenExactly(db: Database, w: With, nodes: seq<Tree>, others: seq<Tree>)
    requires w.edge.O2M? && WellTyped(w.sub) && w.edge.fk in w.sub.entity.columns
    requires Reusable(w.sub) && w.sub.cfg.Unlimited() && Selectable(w.sub)
    ensures BatchEdge(db, With(w.edge, AfterEdge(db, w, nodes)), others) == BatchEdge(db, w, others) <==>
            AllServed(db, w, nodes, others)
  {
    EdgeLoads(db, w, others);
    if AllServed(db, w, nodes, others) {
      ServedLoadAlike(db, w, nodes, others);
    } else {
      UnservedLoadsDiffer(db, w, nodes, others);
    }
  }

  /******* M2O *******/

  /** The builder was not used after all, or every key was asked for before or leads to no row. */
  ghost predicate AllFound(db: Database, w: With, nodes: seq<Tree>, others: seq<Tree>)
    requires w.edge.M2O?
  {
    var earlier := KeyList(nodes, w.edge.fk, w.edge.required);
    earlier == [] || forall i :: 0 <= i < |others| ==> StillFound(db, w, earlier, others[i])
  }

  ghost predicate StillFound(db: Database, w: With, earlier: seq<int>, t: Tree)
    requires w.edge.M2O?
  {
    var key := ForeignKey(t.row, w.edge.fk, w.edge.required);
    key.None? || key.value in earlier || !HasRow(db, w.sub.entity, w.sub.cfg, ID, key.value)
  }

  lemma FoundLoadAlike(db: Database, w: With, nodes: seq<Tree>, others: seq<Tree>)
    requires w.edge.M2O? && Reusable(w.sub) && w.sub.cfg.Unlimited() && AllFound(db, w, nodes, others)
    ensures BatchEdge(db, With(w.edge, AfterEdge(db, w, nodes)), others) == BatchEdge(db, w, others)
  {
    var earlier, later := KeyList(nodes, w.edge.fk, w.edge.required), KeyList(others, w.edge.fk, w.edge.required);
    if earlier != [] {
      KeyListMembers(others, w.edge.fk, w.edge.required);
      forall r | r in Matching(db, w.sub.entity, w.sub.cfg) && Holds(ColIn(ID, later), r) ensures Holds(ColIn(ID, earlier), r) {
        var id := Key(r, ID).value;
        var i :| 0 <= i < |others| && ForeignKey(others[i].row, w.edge.fk, w.edge.required) == Some(id);
        assert StillFound(db, w, earlier, others[i]) && HasRow(db, w.sub.entity, w.sub.cfg, ID, id);
      }
      ServedTargets(db, w, nodes, others);
    }
  }

  lemma {:induction false} LastWithIdHas(ns: seq<Tree>, id: int)
    ensures LastWithId(ns, id).Some? <==> exists i :: 0 <= i < |ns| && Id(ns[i].row) == id
  {
    if ns != [] {
      var init := ns[..|ns| - 1];
      LastWithIdHas(init, id);
      if i :| 0 <= i < |init| && Id(init[i].row) == id {
        assert ns[i] == init[i];
      }
      if i :| 0 <= i < |ns| && Id(ns[i].row) == id {
        assert i < |init| ==> init[i] == ns[i];
      }
    }
  }

  /** For a key that was not asked for but leads to a row, a fresh builder finds the row,
      and the used one finds none. */
  lemma UnfoundTargets(db: Database, sub: Query, earlier: seq<int>, later: seq<int>, id: int, ns: seq<Tree>, r: Result<seq<Tree>>)
    requires WellTyped(sub) && sub.entity.hasId && sub.cfg.Unlimited()
    requires id in later && id !in earlier && HasRow(db, sub.entity, sub.cfg, ID, id)
    requires var narrowed := sub.cfg.Where(ColIn(ID, earlier));
             && BatchAll(db, sub, sub.cfg.Where(ColIn(ID, later))) == Ok(ns)
             && BatchAll(db, AfterAll(db, sub, narrowed), narrowed.Where(ColIn(ID, later))) == r
    ensures LastWithId(ns, id).Some?
    ensures r.Ok? ==> LastWithId(r.value, id).None?
  {
    ForcedColumns(sub, sub.cfg.fields);
    KeyIsShown(db, sub, sub.cfg, ID, later, id, ns);
    LastWithIdHas(ns, id);
    if r.Ok? {
      OnlyEarlierShown(db, sub, sub.cfg, ID, earlier, later, r.value);
      LastWithIdHas(r.value, id);
    }
  }

  lemma UnfoundLoadsDiffer(db: Database, w: With, nodes: seq<Tree>, others: seq<Tree>)
    requires w.edge.M2O? && WellTyped(w.sub) && w.sub.entity.hasId && w.sub.cfg.Unlimited()
    requires forall i :: 0 <= i < |others| ==> w.edge.name !in others[i].one
    requires BatchEdge(db, w, others).Ok? && !AllFound(db, w, nodes, others)
    ensures BatchEdge(db, With(w.edge, AfterEdge(db, w, nodes)), others) != BatchEdge(db, w, others)
  {
    var i :| 0 <= i < |others| && !StillFound(db, w, KeyList(nodes, w.edge.fk, w.edge.required), others[i]);
    UnfoundNodeDiffers(db, w, nodes, others, i);
  }

  lemma UnfoundNodeDiffers(db: Database, w: With, nodes: seq<Tree>, others: seq<Tree>, i: nat)
    requires w.edge.M2O? && WellTyped(w.sub) && w.sub.entity.hasId && w.sub.cfg.Unlimited()
    requires i < |others| && w.edge.name !in others[i].one && BatchEdge(db, w, others).Ok?
    requires var earlier := KeyList(nodes, w.edge.fk, w.edge.required);
             earlier != [] && !StillFound(db, w, earlier, others[i])
    ensures BatchEdge(db, With(w.edge, AfterEdge(db, w, nodes)), others) != BatchEdge(db, w, others)
  {
    var earlier, later := KeyList(nodes, w.edge.fk, w.edge.required), KeyList(others, w.edge.fk, w.edge.required);
    var w' := With(w.edge, AfterEdge(db, w, nodes));
    var key := ForeignKey(others[i].row, w.edge.fk, w.edge.required).value;
    assert key in later by {
      KeyListMembers(others, w.edge.fk, w.edge.required);
    }
    UsedTargets(db, w, nodes, others);
    assert later != [];
    var ns, r := BatchAll(db, w.sub, BatchConfig(w, others)).value, BatchAll(db, w'.sub, BatchConfig(w', others));
    UnfoundTargets(db, w.sub, earlier, later, key, ns, r);
    if r.Ok? {
      DifferentTargets(db, w, w', others, i, ns, r.value);
    }
  }

  lemma DifferentTargets(db: Database, w: With, w': With, nodes: seq<Tree>, i: nat, ns: seq<Tree>, ns': seq<Tree>)
    requires w.edge.M2O? && w'.edge == w.edge && i < |nodes| && w.edge.name !in nodes[i].one
    requires KeyList(nodes, w.edge.fk, w.edge.required) != []
    requires BatchAll(db, w.sub, BatchConfig(w, nodes)) == Ok(ns) && BatchAll(db, w'.sub, BatchConfig(w', nodes)) == Ok(ns')
    requires var key := ForeignKey(nodes[i].row, w.edge.fk, w.edge.required);
             key.Some? && LastWithId(ns, key.value).Some? && LastWithId(ns', key.value).None?
    ensures BatchEdge(db, w', nodes) != BatchEdge(db, w, nodes)
  {
    var t, t' := BatchEdge(db, w, nodes).value[i], BatchEdge(db, w', nodes).value[i];
    assert w.edge.name in t.one && w.edge.name !in t'.one;
  }

  /** Through a used builder, whatever tree it is, an M2O edge is loaded as through a fresh
      one if and only if every key was asked for before or leads to no row, or the builder
      was not used after all. */
  lemma StaleTargetsExactly(db: Database, w: With, nodes: seq<Tree>, others: seq<Tree>)
    requires w.edge.M2O? && WellTyped(w.sub) && w.sub.entity.hasId
    requires Reusable(w.sub) && w.sub.cfg.Unlimited() && Selectable(w.sub)
    requires forall i :: 0 <= i < |others| ==> w.edge.name !in others[i].one
    ensures BatchEdge(db, With(w.edge, AfterEdge(db, w, nodes)), others) == BatchEdge(db, w, others) <==>
            AllFound(db, w, nodes, others)
  {
    EdgeLoads(db, w, others);
    if AllFound(db, w, nodes, others) {
      FoundLoadAlike(db, w, nodes, others);
    } else {
      UnfoundLoadsDiffer(db, w, nodes, others);
    }
  }
}
