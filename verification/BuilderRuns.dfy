/**
  Runs of whole builders: what a caller gets from the mutable builder tree, from a
  builder that was used before, and from a clone.
 */
module BuilderRuns {
  import opened Options
  import opened Store
  import opened EagerLoad
  import opened Refinement
  import opened QueryBuilder
  import opened Rerun

  /** A fresh tree of builders, run in place, gives what looking up every edge of
      every node gives. */
  method RunFresh(b: Builder, db: Database) returns (r: Result<seq<Tree>>)
    requires b.Valid() && WellTyped(b.Model()) && Keyed(db, b.Model())
    requires Fresh(b.Model()) && NestedUnlimited(b.Model())
    modifies b.Repr, b.Held
    ensures r == RefAll(db, old(b.Model()), old(b.Cfg()))
    ensures b.Valid() && b.Model() == AfterAll(db, old(b.Model()), old(b.Cfg()))
  {
    FreshJoinsInPlace(b.Model(), false);
    BatchRefinesLookup(db, b.Model());
    r := b.All(db);
  }

  lemma {:induction false} FreshJoinsInPlace(q: Query, joined: bool)
    requires Fresh(q)
    ensures JoinsInPlace(q, joined)
    decreases q
  {
    forall k | 0 <= k < |q.withs| ensures JoinsInPlace(q.withs[k].sub, q.withs[k].edge.M2M?) {
      FreshJoinsInPlace(q.withs[k].sub, q.withs[k].edge.M2M?);
    }
  }

  /******* A run leaves a tree that can be run *******/

  lemma AfterRunnable(db: Database, q: Query, cfg: Config, joined: bool)
    requires Runnable(db, q, joined) && (joined || Joins(cfg.preds) == [])
    ensures Runnable(db, AfterAll(db, q, cfg), joined)
    ensures joined ==> Runnable(db, AfterJoined(db, q, cfg), joined)
    decreases q, 2, 0
  {
    AfterLoadRunnable(db, q, cfg, Rows(db, q.entity, cfg));
    AfterLoadRunnable(db, q, cfg, FirstOfEach(JoinRows(db, q.entity, cfg), {}));
  }

  lemma AfterLoadRunnable(db: Database, q: Query, cfg: Config, rows: seq<Row>)
    requires Runnable(db, q, true)
    ensures SubsRunnable(db, q.entity, AfterLoad(db, q, cfg, rows))
    decreases q, 1, 0
  {
    if rows != [] {
      AfterEdgesRunnable(db, q, BareAll(q, cfg, rows), 0);
    }
  }

  /** Requested edges that fit the entity and can be run. */
  ghost predicate SubsRunnable(db: Database, entity: Entity, ws: seq<With>) {
    forall k :: 0 <= k < |ws| ==> FitsEdge(entity, ws[k]) && Runnable(db, ws[k].sub, ws[k].edge.M2M?)
  }

  lemma AfterEdgesRunnable(db: Database, q: Query, nodes: seq<Tree>, k: nat)
    requires SubsRunnable(db, q.entity, q.withs) && k <= |q.withs|
    ensures SubsRunnable(db, q.entity, AfterEdges(db, q, nodes, k))
    decreases q, 0, |q.withs| - k
  {
    if k < |q.withs| {
      var w := q.withs[k];
      AfterEdgeRunnable(db, w, nodes);
      match BatchEdge(db, w, nodes)
      case Err(_) =>
      case Ok(nodes') => AfterEdgesRunnable(db, q, nodes', k + 1);
    }
  }

  lemma AfterEdgeRunnable(db: Database, w: With, nodes: seq<Tree>)
    requires Runnable(db, w.sub, w.edge.M2M?)
    ensures Runnable(db, AfterEdge(db, w, nodes), w.edge.M2M?)
    ensures AfterEdge(db, w, nodes).entity == w.sub.entity
    decreases w
  {
    RunnableBatch(db, w, nodes);
    AfterRunnable(db, w.sub, BatchConfig(w, nodes), w.edge.M2M?);
  }

  /** Without M2M edges, running the same builder twice on the same database gives
      the same result twice. */
  method RunTwice(b: Builder, db: Database) returns (first: Result<seq<Tree>>, second: Result<seq<Tree>>)
    requires b.Valid() && Runnable(db, b.Model(), false) && NoJoinedEdges(b.Model())
    modifies b.Repr, b.Held
    ensures b.Valid() && first == second == BatchAll(db, old(b.Model()), old(b.Cfg()))
  {
    ghost var q := b.Model();
    AfterRunnable(db, q, q.cfg, false);
    RerunSame(db, q, q.cfg);
    first := b.All(db);
    second := b.All(db);
  }

  /** Running a clone gives the result of the builder and leaves the builder alone. */
  method RunClone(b: Builder, db: Database) returns (r: Result<seq<Tree>>)
    requires b.Valid() && Runnable(db, b.Model(), false)
    ensures r == BatchAll(db, b.Model(), b.Cfg())
  {
    ghost var q := b.Model();
    var c := b.Clone();
    UnlockedRunsAlike(db, q);
    r := c.All(db);
  }

  lemma UnlockedRunsAlike(db: Database, q: Query)
    requires Runnable(db, q, false)
    ensures Runnable(db, Unlocked(q), false)
    ensures BatchAll(db, Unlocked(q), Unlocked(q).cfg) == BatchAll(db, q, q.cfg)
  {
    RunUnlocked(db, q, q.cfg);
    UnlockedRunnable(db, q, false);
  }

  lemma {:induction false} UnlockedRunnable(db: Database, q: Query, joined: bool)
    requires Runnable(db, q, joined)
    ensures Runnable(db, Unlocked(q), joined)
    decreases q
  {
    forall k | 0 <= k < |q.withs|
      ensures Runnable(db, Unlocked(q).withs[k].sub, q.withs[k].edge.M2M?) && FitsEdge(q.entity, Unlocked(q).withs[k])
    {
      UnlockedRunnable(db, q.withs[k].sub, q.withs[k].edge.M2M?);
    }
  }

  /** Sets a configuration and runs the builder under it. */
  method RunWith(b: Builder, db: Database, cfg: Config)
    requires b.Valid() && Runnable(db, b.Model().(cfg := cfg), false)
    modifies b.Repr, b.Held
    ensures b.Valid() && b.Repr == old(b.Repr) && b.Held == old(b.Held)
    ensures b.Model() == AfterAll(db, old(b.Model()).(cfg := cfg), cfg)
  {
    b.Configure(cfg);
    var _ := b.All(db);
  }

  /** Whatever happens to the builder after it was cloned, the clone stays as it was. */
  method CloneThenUse(b: Builder, db: Database, cfg: Config) returns (c: Builder)
    requires b.Valid() && Runnable(db, b.Model().(cfg := cfg), false)
    modifies b.Repr, b.Held
    ensures c.Valid() && fresh(c.Repr) && fresh(c.Held) && c.Model() == Unlocked(old(b.Model()))
    ensures b.Valid() && b.Model() == AfterAll(db, old(b.Model()).(cfg := cfg), cfg)
  {
    c := b.Clone();
    RunWith(b, db, cfg);
  }

  /** After Exist, a later All on the same builder sees at most one row. */
  method ExistThenAll(b: Builder, db: Database) returns (some: Result<bool>, r: Result<seq<Tree>>)
    requires b.Valid() && Runnable(db, b.Model(), false) && b.entity.hasId
    modifies b.Repr, b.Held
    ensures some.Ok? <==> old(b.Cfg()).fields == []
    ensures some.Ok? ==> some.value == (Rows(db, b.entity, old(b.Cfg()).(limit := None)) != [])
    ensures r.Ok? ==> |r.value| == if Rows(db, b.entity, old(b.Cfg()).(limit := None)) != [] then 1 else 0
  {
    ghost var q := b.Model();
    some := b.Exist(db);
    var cfg := b.Cfg();
    LimitedRun(db, b.Model(), cfg.(limit := None), 1);
    assert cfg == cfg.(limit := None).(limit := Some(1));
    assert Matching(db, q.entity, cfg.(limit := None)) == Matching(db, q.entity, q.cfg.(limit := None));
    r := b.All(db);
  }

  /** The ID that Exist leaves among the selected fields makes the next Exist on the same
      builder fail, whatever the rows. */
  method ExistTwice(b: Builder, db: Database) returns (first: Result<bool>, again: Result<bool>)
    requires b.Valid() && Runnable(db, b.Model(), false) && b.entity.hasId
    modifies b, b.ctx
    ensures again.Err?
    ensures first.Ok? <==> old(b.Cfg()).fields == []
    ensures first.Ok? ==> first.value == (Rows(db, b.entity, old(b.Cfg()).(limit := None)) != [])
  {
    first := b.Exist(db);
    again := b.Exist(db);
  }

  /** A clone taken before answers when the builder itself no longer does. */
  method ExistOnEarlierClone(b: Builder, db: Database) returns (again: Result<bool>, onClone: Result<bool>)
    requires b.Valid() && Runnable(db, b.Model(), false) && b.entity.hasId
    modifies b, b.ctx
    ensures again.Err?
    ensures onClone.Ok? <==> old(b.Cfg()).fields == []
    ensures onClone.Ok? ==> onClone.value == (Rows(db, b.entity, old(b.Cfg()).(limit := None)) != [])
  {
    ghost var q := b.Model();
    var c := b.Clone();
    UnlockedAnswers(db, q);
    var first;
    first, again := ExistTwice(b, db);
    onClone := c.Exist(db);
  }

  lemma UnlockedAnswers(db: Database, q: Query)
    requires Runnable(db, q, false)
    ensures Runnable(db, Unlocked(q), false) && Unlocked(q).cfg.fields == q.cfg.fields
    ensures Rows(db, q.entity, Unlocked(q).cfg.(limit := None)) == Rows(db, q.entity, q.cfg.(limit := None))
  {
    UnlockedRunnable(db, q, false);
    assert Matching(db, q.entity, q.cfg.(limit := None, locks := [])) == Matching(db, q.entity, q.cfg.(limit := None));
  }

  /** Exist on a clone answers as on the builder, and leaves the builder as it was. */
  method ExistOnClone(b: Builder, db: Database) returns (some: Result<bool>)
    requires b.Valid() && Runnable(db, b.Model(), false) && b.entity.hasId
    ensures some.Ok? <==> b.Cfg().fields == []
    ensures some.Ok? ==> some.value == (Rows(db, b.entity, b.Cfg().(limit := None)) != [])
  {
    ghost var q := b.Model();
    var c := b.Clone();
    UnlockedAnswers(db, q);
    some := c.Exist(db);
  }
}
