/**
  What happens when a builder is run more than once. The loaders leave their
  predicates on the nested builders, so a second run is not a fresh one.
 */
module Rerun {
  import opened Store
  import opened EagerLoad
  import opened Refinement
  import opened BatchFacts
  import opened QueryBuilder

  /******* Running an unchanged builder again *******/

  predicate NoJoinedEdges(q: Query) {
    forall k :: 0 <= k < |q.withs| ==> !q.withs[k].edge.M2M? && NoJoinedEdges(q.withs[k].sub)
  }

  lemma LoadSameFields(db: Database, q: Query, cfg: Config, cfg': Config, rows: seq<Row>)
    requires cfg.fields == cfg'.fields
    ensures BatchLoad(db, q, cfg, rows) == BatchLoad(db, q, cfg', rows)
  {
    assert BareAll(q, cfg, rows) == BareAll(q, cfg', rows);
  }

  /** Narrowing a builder twice by the same predicate narrows it once. */
  lemma WhereTwice(db: Database, entity: Entity, cfg: Config, p: Pred)
    ensures Rows(db, entity, cfg.Where(p).Where(p)) == Rows(db, entity, cfg.Where(p))
  {
    var base := Matching(db, entity, cfg);
    MatchingWhere(db, entity, cfg, p);
    MatchingWhere(db, entity, cfg.Where(p), p);
    SelectNarrow(p, p, base);
  }

  /** On an unchanged database, a builder without M2M edges gives the same nodes
      and edges again, although its nested builders are narrowed twice. */
  lemma RerunSame(db: Database, q: Query, cfg: Config)
    requires NoJoinedEdges(q)
    ensures BatchAll(db, AfterAll(db, q, cfg), cfg) == BatchAll(db, q, cfg)
  {
    if ValidFields(q.entity, cfg) {
      var rows := Rows(db, q.entity, cfg);
      RerunLoad(db, q, cfg, rows);
      LoadSameShape(db, AfterAll(db, q, cfg), q.(withs := AfterLoad(db, q, cfg, rows)), cfg, rows);
    }
  }

  lemma RerunLoad(db: Database, q: Query, cfg: Config, rows: seq<Row>)
    requires NoJoinedEdges(q)
    ensures BatchLoad(db, q.(withs := AfterLoad(db, q, cfg, rows)), cfg, rows) == BatchLoad(db, q, cfg, rows)
    decreases q, 1, 0
  {
    if rows != [] {
      var nodes := BareAll(q, cfg, rows);
      var q' := q.(withs := AfterEdges(db, q, nodes, 0));
      SameEdgesAfter(db, q, nodes);
      assert BareAll(q', cfg, rows) == nodes;
      assert q'.withs[0..] == AfterEdges(db, q, nodes, 0);
      RerunEdges(db, q, q', nodes, 0);
    }
  }

  lemma SameEdgesAfter(db: Database, q: Query, nodes: seq<Tree>)
    ensures EdgesOf(q.(withs := AfterEdges(db, q, nodes, 0))) == EdgesOf(q)
  {
    var ws := AfterEdges(db, q, nodes, 0);
    AfterKeepsEdges(db, q, nodes, 0);
    forall j | 0 <= j < |q.withs| ensures ws[j].edge == q.withs[j].edge {
      assert ws[j] == ws[j - 0];
    }
  }

  lemma {:induction false} AfterKeepsEdges(db: Database, q: Query, nodes: seq<Tree>, k: nat)
    requires k <= |q.withs|
    ensures forall j :: k <= j < |q.withs| ==> AfterEdges(db, q, nodes, k)[j - k].edge == q.withs[j].edge
    decreases |q.withs| - k
  {
    if k < |q.withs| {
      var r := BatchEdge(db, q.withs[k], nodes);
      var ws := AfterEdges(db, q, nodes, k);
      if r.Ok? {
        AfterKeepsEdges(db, q, r.value, k + 1);
        var rest := AfterEdges(db, q, r.value, k + 1);
        forall j | k <= j < |q.withs| ensures ws[j - k].edge == q.withs[j].edge {
          if j > k {
            assert ws[j - k] == rest[j - (k + 1)];
          }
        }
      }
    }
  }

  lemma RerunEdges(db: Database, q: Query, q': Query, nodes: seq<Tree>, k: nat)
    requires NoJoinedEdges(q) && k <= |q.withs| == |q'.withs|
    requires q'.withs[k..] == AfterEdges(db, q, nodes, k)
    ensures BatchEdges(db, q', nodes, k) == BatchEdges(db, q, nodes, k)
    decreases q, 0, |q.withs| - k
  {
    if k < |q.withs| {
      var w := q.withs[k];
      assert q'.withs[k] == q'.withs[k..][0] == With(w.edge, AfterEdge(db, w, nodes));
      RerunEdge(db, w, nodes);
      var r := BatchEdge(db, w, nodes);
      if r.Ok? {
        assert q'.withs[k + 1..] == q'.withs[k..][1..] == AfterEdges(db, q, r.value, k + 1);
        RerunEdges(db, q, q', r.value, k + 1);
      }
    }
  }

  lemma RerunEdge(db: Database, w: With, nodes: seq<Tree>)
    requires !w.edge.M2M? && NoJoinedEdges(w.sub)
    ensures BatchEdge(db, With(w.edge, AfterEdge(db, w, nodes)), nodes) == BatchEdge(db, w, nodes)
    decreases w
  {
    var cfg := BatchConfig(w, nodes);
    if w.edge.M2O? && KeyList(nodes, w.edge.fk, w.edge.required) == [] {
    } else {
      var p, from :=
        if w.edge.M2O? then ColIn(ID, KeyList(nodes, w.edge.fk, w.edge.required)) else ColIn(w.edge.fk, IdList(nodes)),
        if w.edge.M2O? then w.sub.cfg else w.sub.cfg.Force(w.edge.fk);
      assert cfg == from.Where(p);
      RerunNeighbors(db, w.sub, from, p);
      assert BatchConfig(With(w.edge, AfterEdge(db, w, nodes)), nodes) == cfg.Where(p);
    }
  }

  lemma RerunNeighbors(db: Database, sub: Query, from: Config, p: Pred)
    requires NoJoinedEdges(sub)
    ensures BatchAll(db, AfterAll(db, sub, from.Where(p)), from.Where(p).Where(p)) == BatchAll(db, sub, from.Where(p))
    decreases sub, 2, 0
  {
    var cfg := from.Where(p);
    if ValidFields(sub.entity, cfg) {
      WhereTwice(db, sub.entity, from, p);
      var rows := Rows(db, sub.entity, cfg);
      var after := AfterAll(db, sub, cfg);
      RerunLoad(db, sub, cfg, rows);
      LoadSameShape(db, after, sub.(withs := AfterLoad(db, sub, cfg, rows)), cfg, rows);
      LoadSameFields(db, after, cfg, cfg.Where(p), rows);
    } else {
      assert !ValidFields(sub.entity, cfg.Where(p));
    }
  }

  lemma OwnRowMembers(pairs: seq<(int, int)>, owners: seq<int>, rows: seq<Row>, r: Row)
    ensures r in OwnRow(JoinAll(pairs, owners, rows)) <==> r in rows && IsLinked(pairs, owners, Id(r))
  {
    var js := JoinAll(pairs, owners, rows);
    JoinAllMembers(pairs, owners, rows);
    LinkedByPair(pairs, owners, Id(r));
    if r in OwnRow(js) {
      var i :| 0 <= i < |js| && OwnRow(js)[i] == r;
      assert js[i] in js;
    }
    if r in rows && IsLinked(pairs, owners, Id(r)) {
      var o :| o in owners && (o, Id(r)) in pairs;
      assert Joined(o, r) in js;
      var i :| 0 <= i < |js| && js[i] == Joined(o, r);
      assert OwnRow(js)[i] == r;
    }
  }

  /** A neighbor that the builder may show is joined to both some earlier and some later node. */
  ghost predicate SharedNeighbor(db: Database, w: With, earlier: seq<int>, later: seq<int>)
    requires w.edge.M2M?
  {
    var pairs := db.Pairs(w.edge.join);
    exists r :: r in Matching(db, w.sub.entity, w.sub.cfg) && IsLinked(pairs, earlier, Id(r)) && IsLinked(pairs, later, Id(r))
  }

  lemma TwoJoins(db: Database, w: With, earlier: seq<int>, later: seq<int>)
    requires w.edge.M2M? && w.sub.cfg.Unlimited() && Joins(w.sub.cfg.preds) == []
    ensures var cfg := w.sub.cfg.Where(JoinIn(w.edge.join, earlier)).Where(JoinIn(w.edge.join, later));
            && |Joins(cfg.preds)| == 2
            && (Undecodable(db, w.sub.entity, cfg) <==> SharedNeighbor(db, w, earlier, later))
  {
    var p, p' := JoinIn(w.edge.join, earlier), JoinIn(w.edge.join, later);
    var cfg, cfg' := w.sub.cfg.Where(p), w.sub.cfg.Where(p).Where(p');
    JoinsAppend(w.sub.cfg.preds, p);
    JoinsAppend(cfg.preds, p');
    var base := Matching(db, w.sub.entity, w.sub.cfg);
    MatchingWhere(db, w.sub.entity, w.sub.cfg, p);
    MatchingWhere(db, w.sub.entity, cfg, p');
    SelectTrivial(p, base);
    SelectTrivial(p', base);
    var pairs := db.Pairs(w.edge.join);
    var once := OwnRow(JoinAll(pairs, earlier, base));
    var twice := OwnRow(JoinAll(pairs, later, once));
    assert Joins(cfg'.preds) == [p, p'] && [p, p'][1..] == [p'] && [p'][1..] == [];
    assert Multiplied(db, [p'], once) == twice;
    assert Multiplied(db, [p, p'], base) == twice;
    WindowAll(cfg', twice);
    forall r ensures r in twice <==> r in base && IsLinked(pairs, earlier, Id(r)) && IsLinked(pairs, later, Id(r)) {
      OwnRowMembers(pairs, earlier, base, r);
      OwnRowMembers(pairs, later, once, r);
    }
    if twice != [] {
      assert twice[0] in twice;
    }
  }

  /** An M2M edge leaves its JOIN behind, and every JOIN adds a leading column of which
      the callback strips one. Loading the edge again fails exactly if some neighbor is
      joined to both earlier and later nodes; otherwise every list comes out empty. */
  lemma RerunJoinExactly(db: Database, w: With, nodes: seq<Tree>, others: seq<Tree>)
    requires w.edge.M2M? && w.sub.cfg.Unlimited() && Joins(w.sub.cfg.preds) == []
    ensures var again := BatchEdge(db, With(w.edge, AfterEdge(db, w, nodes)), others);
            && (again.Err? <==>
                !ValidFields(w.sub.entity, w.sub.cfg) || SharedNeighbor(db, w, IdList(nodes), IdList(others)))
            && (again.Ok? ==> forall i :: 0 <= i < |others| ==>
                  again.value[i] == others[i].(many := others[i].many[w.edge.name := []]))
  {
    TwoJoins(db, w, IdList(nodes), IdList(others));
    var used := AfterEdge(db, w, nodes);
    UsedConfig(db, w, nodes, others);
    JoinedTwice(db, used, BatchConfig(With(w.edge, used), others));
    LoadedTwice(db, With(w.edge, used), others);
  }

  lemma UsedConfig(db: Database, w: With, nodes: seq<Tree>, others: seq<Tree>)
    requires w.edge.M2M?
    ensures var used := AfterEdge(db, w, nodes);
            var cfg := BatchConfig(With(w.edge, used), others);
            && used.entity == w.sub.entity
            && cfg == w.sub.cfg.Where(JoinIn(w.edge.join, IdList(nodes))).Where(JoinIn(w.edge.join, IdList(others)))
            && (ValidFields(used.entity, cfg) <==> ValidFields(w.sub.entity, w.sub.cfg))
  {
  }

  lemma JoinedTwice(db: Database, q: Query, cfg: Config)
    requires |Joins(cfg.preds)| == 2
    ensures BatchJoined(db, q, cfg) ==
            if !ValidFields(q.entity, cfg) then Err(InvalidField)
            else if Undecodable(db, q.entity, cfg) then Err(ColumnShift)
            else Ok([])
  {
  }

  lemma LoadedTwice(db: Database, w: With, nodes: seq<Tree>)
    requires w.edge.M2M?
    requires BatchJoined(db, w.sub, BatchConfig(w, nodes)).Ok? ==> BatchJoined(db, w.sub, BatchConfig(w, nodes)).value == []
    ensures var r := BatchEdge(db, w, nodes);
            && (r.Err? <==> BatchJoined(db, w.sub, BatchConfig(w, nodes)).Err?)
            && (r.Ok? ==> forall i :: 0 <= i < |nodes| ==>
                  r.value[i] == nodes[i].(many := nodes[i].many[w.edge.name := []]))
  {
  }

  /******* Running a builder again on other nodes *******/

  lemma WindowAll<T>(cfg: Config, s: seq<T>)
    requires cfg.Unlimited()
    ensures Window(cfg, s) == s
  {
    assert s[0..] == s;
  }

  lemma {:induction false} SelectNothing(p: Pred, other: Pred, rows: seq<Row>)
    requires forall r :: r in rows ==> !(Holds(p, r) && Holds(other, r))
    ensures Select([p], Select([other], rows)) == []
  {
    if rows != [] {
      SelectNothing(p, other, rows[1..]);
      HoldsOne(p, rows[0]);
      HoldsOne(other, rows[0]);
      SelectCons([p], rows[0], Select([other], rows[1..]));
    }
  }

  /******* Running a clone instead *******/

  lemma EdgeUnlocked(db: Database, w: With, nodes: seq<Tree>)
    ensures BatchEdge(db, With(w.edge, Unlocked(w.sub)), nodes) == BatchEdge(db, w, nodes)
    decreases w
  {
    var w' := With(w.edge, Unlocked(w.sub));
    var cfg, cfg' := BatchConfig(w, nodes), BatchConfig(w', nodes);
    assert cfg' == cfg.(locks := []);
    RunUnlocked(db, w.sub, cfg);
  }

  lemma EdgesUnlocked(db: Database, q: Query, nodes: seq<Tree>, k: nat)
    requires k <= |q.withs|
    ensures BatchEdges(db, Unlocked(q), nodes, k) == BatchEdges(db, q, nodes, k)
    decreases q, 0, |q.withs| - k
  {
    if k < |q.withs| {
      EdgeUnlocked(db, q.withs[k], nodes);
      var r := BatchEdge(db, q.withs[k], nodes);
      if r.Ok? {
        EdgesUnlocked(db, q, r.value, k + 1);
      }
    }
  }

  lemma LoadUnlocked(db: Database, q: Query, cfg: Config, rows: seq<Row>)
    ensures BatchLoad(db, Unlocked(q), cfg.(locks := []), rows) == BatchLoad(db, q, cfg, rows)
    decreases q, 1, 0
  {
    assert EdgesOf(Unlocked(q)) == EdgesOf(q);
    assert BareAll(Unlocked(q), cfg.(locks := []), rows) == BareAll(q, cfg, rows);
    EdgesUnlocked(db, q, BareAll(q, cfg, rows), 0);
  }

  /** A clone gives what the original gives: the locks it lacks select no rows. */
  lemma RunUnlocked(db: Database, q: Query, cfg: Config)
    ensures BatchAll(db, Unlocked(q), cfg.(locks := [])) == BatchAll(db, q, cfg)
    ensures BatchJoined(db, Unlocked(q), cfg.(locks := [])) == BatchJoined(db, q, cfg)
    decreases q, 2, 0
  {
    LocksSelectNothing(db, q.entity, cfg);
    LoadUnlocked(db, q, cfg, Rows(db, q.entity, cfg));
    LoadUnlocked(db, q, cfg, FirstOfEach(JoinRows(db, q.entity, cfg), {}));
  }

  lemma LocksSelectNothing(db: Database, entity: Entity, cfg: Config)
    ensures var cfg' := cfg.(locks := []);
            && (ValidFields(entity, cfg') <==> ValidFields(entity, cfg))
            && Rows(db, entity, cfg') == Rows(db, entity, cfg) && JoinRows(db, entity, cfg') == JoinRows(db, entity, cfg)
            && (Undecodable(db, entity, cfg') <==> Undecodable(db, entity, cfg))
  {
    var cfg', js, base := cfg.(locks := []), Joins(cfg.preds), Matching(db, entity, cfg);
    assert Matching(db, entity, cfg') == base;
    WindowSame(cfg, cfg', base);
    WindowSame(cfg, cfg', Multiplied(db, js, base));
    if |js| == 1 && js[0].JoinIn? {
      WindowSame(cfg, cfg', JoinAll(db.Pairs(js[0].join), js[0].owners, base));
    }
  }

  lemma WindowSame<T>(cfg: Config, cfg': Config, s: seq<T>)
    requires cfg.limit == cfg'.limit && cfg.offset == cfg'.offset
    ensures Window(cfg, s) == Window(cfg', s)
  {
  }
}
