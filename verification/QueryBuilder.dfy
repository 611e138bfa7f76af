/**
  The query builder itself: a mutable tree of builders. Terminal calls set limits
  and fields on it, and running it narrows the nested builders in place.
 */
module QueryBuilder {
  import opened Options
  import opened Store
  import opened EagerLoad
  import opened BatchFacts
  import opened EdgeLoaders

  datatype WithBuilder = WithBuilder(edge: Edge, sub: Builder)

  /** JOIN predicates stand only on builders that are read through a join. */
  predicate JoinsInPlace(q: Query, joined: bool) {
    && (joined || Joins(q.cfg.preds) == [])
    && (forall k :: 0 <= k < |q.withs| ==> JoinsInPlace(q.withs[k].sub, q.withs[k].edge.M2M?))
  }

  /** What a tree of builders must be like to be run against a database. */
  ghost predicate Runnable(db: Database, q: Query, joined: bool) {
    WellTyped(q) && Keyed(db, q) && JoinsInPlace(q, joined)
  }

  ghost predicate RunnableFrom(db: Database, q: Query, k: nat) {
    forall j :: k <= j < |q.withs| ==>
      FitsEdge(q.entity, q.withs[j]) && Runnable(db, q.withs[j].sub, q.withs[j].edge.M2M?)
  }

  /** The part of a query that a builder holds in an object of its own. */
  class Context {
    var limit: Option<nat>
    var offset: Option<nat>
    var fields: seq<string>

    constructor (limit: Option<nat>, offset: Option<nat>, fields: seq<string>)
      ensures this.limit == limit && this.offset == offset && this.fields == fields
    {
      this.limit, this.offset, this.fields := limit, offset, fields;
    }

    method Clone() returns (c: Context)
      ensures fresh(c) && c.limit == limit && c.offset == offset && c.fields == fields
    {
      c := new Context(limit, offset, fields);
    }
  }

  class Builder {
    const entity: Entity
    const ctx: Context
    var predicates: seq<Pred>
    var order: seq<Row -> int>
    var locks: seq<string>
    var withs: seq<WithBuilder>
    ghost var Repr: set<Builder>
    ghost var Held: set<Context>

    ghost predicate Valid()
      reads this, Repr, Held
      decreases Repr
    {
      && this in Repr && ctx in Held
      && (forall k :: 0 <= k < |withs| ==>
            && withs[k].sub in Repr && withs[k].sub.Repr <= Repr && this !in withs[k].sub.Repr
            && withs[k].sub.Held <= Held && ctx !in withs[k].sub.Held
            && withs[k].sub.Valid())
      && (forall i, j :: 0 <= i < j < |withs| ==> Apart(withs[i].sub, withs[j].sub))
    }

    /** The configuration that the builder and its context hold together. */
    function Cfg(): Config
      reads this, ctx
    {
      Config(predicates, order, ctx.limit, ctx.offset, ctx.fields, locks)
    }

    /** The tree of builders as a value. */
    ghost function Model(): (q: Query)
      requires Valid()
      reads this, Repr, Held
      ensures q.entity == entity && q.cfg == Cfg() && |q.withs| == |withs|
      ensures forall k :: 0 <= k < |withs| ==> q.withs[k] == With(withs[k].edge, withs[k].sub.Model())
      decreases Repr
    {
      Query(entity, Cfg(), seq(|withs|, k requires 0 <= k < |withs| && Valid() reads this, Repr, Held =>
        With(withs[k].edge, withs[k].sub.Model())))
    }

    constructor (entity: Entity, predicates: seq<Pred>, order: seq<Row -> int>, locks: seq<string>, ctx: Context,
                 withs: seq<WithBuilder>, ghost nested: set<Builder>, ghost held: set<Context>, ghost model: seq<With>)
      requires Copies(withs, nested, held, model) && ctx !in held
      ensures Valid() && this.withs == withs && Repr == {this} + nested && Held == {ctx} + held
      ensures Model() == Query(entity, Config(predicates, order, ctx.limit, ctx.offset, ctx.fields, locks), model)
    {
      this.entity, this.ctx, this.withs := entity, ctx, withs;
      this.predicates, this.order, this.locks := predicates, order, locks;
      Repr, Held := {this} + nested, {ctx} + held;
      new;
      assert Valid();
      assert Model().withs == model;
    }

    function Edges(): (es: seq<Edge>)
      reads this
      ensures |es| == |withs|
      ensures forall k :: 0 <= k < |es| ==> es[k] == withs[k].edge
    {
      seq(|withs|, k requires 0 <= k < |withs| reads this => withs[k].edge)
    }

    /** Writes the configuration of this builder and of no other. */
    method Configure(cfg': Config)
      requires Valid()
      modifies this, ctx
      ensures Valid() && Repr == old(Repr) && Held == old(Held) && withs == old(withs)
      ensures Model() == old(Model()).(cfg := cfg')
      ensures forall k :: 0 <= k < |withs| ==> withs[k].sub.Valid() && withs[k].sub.Model() == old(withs[k].sub.Model())
    {
      ghost var q := Model();
      Write(cfg');
      forall k | 0 <= k < |withs|
        ensures withs[k].sub.Valid() && withs[k].sub.Model() == q.withs[k].sub
      {
        assert this !in withs[k].sub.Repr && ctx !in withs[k].sub.Held;
      }
      assert Valid();
      assert Model().withs == q.withs;
    }

    method Write(cfg': Config)
      modifies this, ctx
      ensures Cfg() == cfg' && withs == old(withs) && Repr == old(Repr) && Held == old(Held)
    {
      predicates, order, locks := cfg'.preds, cfg'.order, cfg'.locks;
      ctx.limit, ctx.offset, ctx.fields := cfg'.limit, cfg'.offset, cfg'.fields;
    }

    /** Runs the query: the rows of this builder, with all requested edges. */
    method All(db: Database) returns (r: Result<seq<Tree>>)
      requires Valid() && Runnable(db, Model(), false)
      modifies Repr, Held
      ensures Valid() && Repr == old(Repr) && Held == old(Held)
      ensures r == BatchAll(db, old(Model()), old(Cfg()))
      ensures Model() == AfterAll(db, old(Model()), old(Cfg()))
      decreases Repr, 3
    {
      if !ValidFields(entity, Cfg()) {
        return Err(InvalidField);
      }
      if entity.hasId {
        MatchingUniqueIds(db, entity, Cfg());
      }
      r := LoadAll(db, Rows(db, entity, Cfg()));
    }

    /** The same for a builder whose rows come from a join. The callback records
        every join row, and only the first one of a neighbor is decoded. */
    method AllJoined(db: Database, hook: JoinHook) returns (r: Result<seq<Tree>>)
      requires Valid() && Runnable(db, Model(), true) && entity.hasId
      requires hook.nids == map[] && OwnIds(hook.byID)
      requires |Joins(Cfg().preds)| == 1 ==> forall o :: Joins(Cfg().preds)[0].JoinIn? && o in Joins(Cfg().preds)[0].owners ==> o in hook.byID
      modifies Repr, Held, hook
      ensures Valid() && Repr == old(Repr) && Held == old(Held)
      ensures r == BatchJoined(db, old(Model()), old(Cfg()))
      ensures r.Ok? ==> Records(hook.nids, hook.byID, JoinRows(db, entity, old(Cfg())))
      ensures Model() == AfterJoined(db, old(Model()), old(Cfg()))
      decreases Repr, 3
    {
      if !ValidFields(entity, Cfg()) {
        return Err(InvalidField);
      }
      if Undecodable(db, entity, Cfg()) {
        return Err(ColumnShift);
      }
      if |Joins(Cfg().preds)| == 1 {
        JoinsAreJoins(Cfg().preds);
        OwnersAreKnown(db, entity, Cfg());
      }
      var js := JoinRows(db, entity, Cfg());
      var rows := ReadJoin(hook, js);
      FirstOfEachMembers(js, {});
      r := LoadAll(db, rows);
    }

    /** Decodes the rows and loads the requested edges one after the other. */
    method LoadAll(db: Database, rows: seq<Row>) returns (r: Result<seq<Tree>>)
      requires Valid() && Runnable(db, Model(), true)
      requires entity.hasId ==> forall i, j :: 0 <= i < j < |rows| ==> Id(rows[i]) != Id(rows[j])
      modifies Repr, Held
      ensures Valid() && Repr == old(Repr) && Held == old(Held)
      ensures r == BatchLoad(db, old(Model()), old(Cfg()), rows)
      ensures Model() == old(Model()).(withs := AfterLoad(db, old(Model()), old(Cfg()), rows))
      decreases Repr, 2
    {
      ghost var q := Model();
      if rows == [] {
        LoadNothing(db, q);
        return Ok([]);
      }
      ghost var ts := BareAll(q, q.cfg, rows);
      var nodes := DecodeRows(rows);
      r := LoadEdges(db, nodes, 0);
      LoadUnfold(db, q, rows, ts);
    }

    method DecodeRows(rows: seq<Row>) returns (nodes: seq<Node>)
      requires Valid() && WellTyped(Model())
      ensures |nodes| == |rows| && fresh(nodes) && Distinct(nodes)
      ensures Views(nodes) == BareAll(Model(), Cfg(), rows)
      ensures entity.hasId && (forall i, j :: 0 <= i < j < |rows| ==> Id(rows[i]) != Id(rows[j])) ==> DistinctIds(nodes)
    {
      ghost var q := Model();
      nodes := Decode(ColumnList(entity, Edges(), Cfg().fields), EdgeNames(Edges()), rows);
      assert EdgesOf(q) == Edges();
      assert Views(nodes) == BareAll(q, Cfg(), rows);
      ForcedColumns(q, Cfg().fields);
      assert entity.hasId ==> forall i :: 0 <= i < |rows| ==> Id(nodes[i].row) == Id(rows[i]);
    }

    /** Loads the requested edges from the k-th on into the nodes of one level. */
    method LoadEdges(db: Database, nodes: seq<Node>, k: nat) returns (r: Result<seq<Tree>>)
      requires Valid() && k <= |withs| && RunnableFrom(db, Model(), k)
      requires Distinct(nodes) && nodes != []
      requires entity.hasId ==> DistinctIds(nodes)
      modifies Repr, Held, nodes
      ensures Valid() && Repr == old(Repr) && Held == old(Held) && Cfg() == old(Cfg()) && |withs| == old(|withs|)
      ensures r == BatchEdges(db, old(Model()), old(Views(nodes)), k)
      ensures Model() == old(Model()).(withs := old(Model()).withs[..k] + AfterEdges(db, old(Model()), old(Views(nodes)), k))
      decreases Repr, 1, |withs| - k
    {
      ghost var q := Model();
      ghost var ts := Views(nodes);
      if k == |withs| {
        r := Ok(Views(nodes));
        assert q.withs == q.withs[..k] + [];
        return;
      }
      var err := LoadStep(db, nodes, k);
      if err.Some? {
        AfterFailure(db, q, ts, k);
        return Err(err.value);
      }
      ghost var q' := Model();
      ghost var loaded := Views(nodes);
      StillRunnable(db, q, ts, k);
      r := LoadEdges(db, nodes, k + 1);
      AfterSuccess(db, q, q', ts, loaded, k);
    }

    /** The objects of the nested builders. */
    ghost function Reprs(): (rs: seq<set<Builder>>)
      reads this, set w | w in withs :: w.sub
      ensures |rs| == |withs| && forall k :: 0 <= k < |rs| ==> rs[k] == withs[k].sub.Repr
    {
      seq(|withs|, k requires 0 <= k < |withs| reads this, set w | w in withs :: w.sub => withs[k].sub.Repr)
    }

    ghost function Helds(): (hs: seq<set<Context>>)
      reads this, set w | w in withs :: w.sub
      ensures |hs| == |withs| && forall k :: 0 <= k < |hs| ==> hs[k] == withs[k].sub.Held
    {
      seq(|withs|, k requires 0 <= k < |withs| reads this, set w | w in withs :: w.sub => withs[k].sub.Held)
    }

    /** Loads the k-th edge, which touches the k-th nested builder only. */
    method LoadStep(db: Database, nodes: seq<Node>, k: nat) returns (err: Option<Error>)
      requires Valid() && k < |withs|
      requires FitsEdge(entity, Model().withs[k]) && Runnable(db, Model().withs[k].sub, withs[k].edge.M2M?)
      requires Distinct(nodes) && nodes != []
      requires entity.hasId ==> DistinctIds(nodes)
      modifies withs[k].sub.Repr, withs[k].sub.Held, nodes
      ensures Valid()
      ensures Settles(err, Views(nodes), BatchEdge(db, old(Model()).withs[k], old(Views(nodes))))
      ensures Model() == AfterStep(db, old(Model()), old(Views(nodes)), k)
      decreases Repr, 0, 2
    {
      ghost var q, ts := Model(), Views(nodes);
      ghost var reprs, helds := Reprs(), Helds();
      assert Layout(Repr, Held, this, reprs, helds) by {
        assert forall i, j :: 0 <= i < j < |withs| ==> Apart(withs[i].sub, withs[j].sub);
      }
      err := LoadInto(db, nodes, k);
      Rebuilt(this, AfterStep(db, q, ts, k), reprs, helds);
    }

    method LoadInto(db: Database, nodes: seq<Node>, k: nat) returns (err: Option<Error>)
      requires Valid() && k < |withs|
      requires FitsEdge(entity, Model().withs[k]) && Runnable(db, Model().withs[k].sub, withs[k].edge.M2M?)
      requires Distinct(nodes) && nodes != []
      requires entity.hasId ==> DistinctIds(nodes)
      modifies withs[k].sub.Repr, withs[k].sub.Held, nodes
      ensures withs == old(withs) && Repr == old(Repr) && Held == old(Held) && Cfg() == old(Cfg())
      ensures withs[k].sub.Valid() && withs[k].sub.Repr == old(withs[k].sub.Repr) && withs[k].sub.Held == old(withs[k].sub.Held)
      ensures Settles(err, Views(nodes), BatchEdge(db, old(Model()).withs[k], old(Views(nodes))))
      ensures withs[k].sub.Model() == AfterEdge(db, old(Model()).withs[k], old(Views(nodes)))
      ensures forall j :: 0 <= j < |withs| && j != k ==>
        Is(withs[j].sub, old(Model()).withs[j].sub, old(withs[j].sub.Repr), old(withs[j].sub.Held))
      decreases Repr, 0, 1
    {
      forall j | 0 <= j < |withs| && j != k
        ensures Apart(withs[j].sub, withs[k].sub)
        ensures Is(withs[j].sub, Model().withs[j].sub, withs[j].sub.Repr, withs[j].sub.Held)
      {
        assert Apart(withs[if j < k then j else k].sub, withs[if j < k then k else j].sub);
      }
      err := LoadKth(db, nodes, k);
    }

    method LoadKth(db: Database, nodes: seq<Node>, k: nat) returns (err: Option<Error>)
      requires Valid() && k < |withs|
      requires FitsEdge(entity, Model().withs[k]) && Runnable(db, Model().withs[k].sub, withs[k].edge.M2M?)
      requires Distinct(nodes) && nodes != []
      requires entity.hasId ==> DistinctIds(nodes)
      modifies withs[k].sub.Repr, withs[k].sub.Held, nodes
      ensures withs == old(withs) && Repr == old(Repr) && Held == old(Held) && Cfg() == old(Cfg())
      ensures withs[k].sub.Valid() && withs[k].sub.Repr == old(withs[k].sub.Repr) && withs[k].sub.Held == old(withs[k].sub.Held)
      ensures Settles(err, Views(nodes), BatchEdge(db, old(Model()).withs[k], old(Views(nodes))))
      ensures withs[k].sub.Model() == AfterEdge(db, old(Model()).withs[k], old(Views(nodes)))
      decreases Repr, 0, 0
    {
      err := LoadEdge(db, withs[k], nodes);
    }

    /** Copies the whole tree of builders; row locks are not copied. */
    method Clone() returns (c: Builder)
      requires Valid()
      ensures c.Valid() && fresh(c.Repr) && fresh(c.Held) && c.Model() == Unlocked(old(Model()))
      decreases Repr, 1, 0
    {
      ghost var copy := Unlocked(Model());
      var ws, nested, held := CloneEdges();
      var ctx' := ctx.Clone();
      c := new Builder(entity, predicates, order, [], ctx', ws, nested, held, copy.withs);
    }

    method CloneEdges() returns (ws: seq<WithBuilder>, ghost nested: set<Builder>, ghost held: set<Context>)
      requires Valid()
      ensures fresh(nested) && fresh(held) && Copies(ws, nested, held, Unlocked(old(Model())).withs)
      decreases Repr, 0, 1
    {
      ghost var copy := Unlocked(Model()).withs;
      ws, nested, held := [], {}, {};
      for k := 0 to |withs|
        invariant fresh(nested) && fresh(held) && Copies(ws, nested, held, copy[..k])
      {
        assert copy[..k + 1] == copy[..k] + [copy[k]];
        var sub := CloneEdge(k, ws, nested, held, copy[..k]);
        ws := ws + [WithBuilder(withs[k].edge, sub)];
        nested, held := nested + sub.Repr, held + sub.Held;
      }
      assert copy[..|withs|] == copy;
    }

    method CloneEdge(k: nat, ws: seq<WithBuilder>, ghost nested: set<Builder>, ghost held: set<Context>, ghost model: seq<With>)
      returns (sub: Builder)
      requires Valid() && k < |withs| && Copies(ws, nested, held, model)
      ensures fresh(sub.Repr) && fresh(sub.Held)
      ensures Copies(ws + [WithBuilder(withs[k].edge, sub)], nested + sub.Repr, held + sub.Held,
                     model + [Unlocked(old(Model())).withs[k]])
      decreases Repr, 0, 0
    {
      ghost var edge := Unlocked(Model()).withs[k];
      sub := withs[k].sub.Clone();
      assert edge == With(withs[k].edge, sub.Model());
      CopiesSnoc(ws, nested, held, model, withs[k].edge, sub);
    }

    /** The only row, or why there is not exactly one. */
    method Only(db: Database) returns (r: Terminal)
      requires Valid() && Runnable(db, Model(), false)
      modifies Repr, Held
      ensures Valid() && Repr == old(Repr) && Held == old(Held)
      ensures r.Failed? <==> BatchAll(db, old(Model()), old(Cfg()).(limit := Some(2))).Err?
      ensures var n := |Rows(db, entity, old(Cfg()).(limit := None))|;
              !r.Failed? ==> (r.NotFound? <==> n == 0) && (r.Found? <==> n == 1) && (r.NotSingular? <==> n >= 2)
      ensures r.Found? ==> BatchAll(db, old(Model()), old(Cfg()).(limit := None)) == Ok([r.node])
      ensures Model() == AfterAll(db, old(Model()), old(Cfg()).(limit := Some(2)))
    {
      ghost var q := Model();
      var cfg' := Cfg().(limit := Some(2));
      Configure(cfg');
      RunSameShape(db, q, Model(), cfg');
      LimitedRun(db, q, q.cfg, 2);
      var nodes := All(db);
      match nodes
      case Err(e) => r := Failed(e);
      case Ok(ts) =>
        if |ts| == 1 {
          r := Found(ts[0]);
          assert ts == [ts[0]];
        } else {
          r := if |ts| == 0 then NotFound else NotSingular;
        }
    }

    /** The IDs of the rows. The ID is added to the selected fields, and all of them are
        scanned into a slice of plain integers. */
    method IDs(db: Database) returns (r: Result<seq<int>>)
      requires Valid() && Runnable(db, Model(), false) && entity.hasId
      modifies this, ctx
      ensures Valid() && Repr == old(Repr) && Held == old(Held)
      ensures r.Ok? <==> old(Cfg()).fields == []
      ensures r.Ok? ==> r.value == IdsOf(Scanned(db, entity, old(Cfg())))
      ensures r.Err? ==> r.error == if ValidFields(entity, old(Cfg())) then ColumnCount else InvalidField
      ensures Model() == old(Model()).(cfg := old(Cfg()).(fields := old(Cfg()).fields + [ID]))
    {
      SelectId(db, entity, Cfg());
      Configure(Cfg().(fields := Cfg().fields + [ID]));
      if !ValidFields(entity, Cfg()) {
        return Err(InvalidField);
      }
      if |Cfg().fields| > 1 {
        return Err(ColumnCount);
      }
      r := Ok(IdsOf(Scanned(db, entity, Cfg())));
    }

    /** Whether there is any row, asked with a limit that stays on the builder. */
    method Exist(db: Database) returns (r: Result<bool>)
      requires Valid() && Runnable(db, Model(), false) && entity.hasId
      modifies this, ctx
      ensures Valid() && Repr == old(Repr) && Held == old(Held)
      ensures r.Ok? <==> old(Cfg()).fields == []
      ensures r.Ok? ==> r.value == (Rows(db, entity, old(Cfg()).(limit := None)) != [])
      ensures r.Err? ==> r.error == if ValidFields(entity, old(Cfg())) then ColumnCount else InvalidField
      ensures Model() == old(Model()).(cfg := old(Cfg()).(limit := Some(1), fields := old(Cfg()).fields + [ID]))
    {
      Configure(Cfg().(limit := Some(1)));
      var ids := IDs(db);
      match ids
      case Err(e) => r := Err(e);
      case Ok(list) => r := Ok(list != []);
    }
  }

  /** A valid builder made of the given objects, with the given model. */
  ghost predicate Is(b: Builder, q: Query, repr: set<Builder>, held: set<Context>)
    reads b, repr, held
  {
    b.Repr == repr && b.Held == held && b.Valid() && b.Model() == q
  }

  /** How the objects of a builder are laid out over its nested builders. */
  ghost predicate Layout(repr: set<Builder>, held: set<Context>, b: Builder, reprs: seq<set<Builder>>, helds: seq<set<Context>>) {
    && b in repr && b.ctx in held && |reprs| == |helds|
    && (forall k :: 0 <= k < |reprs| ==> reprs[k] <= repr && b !in reprs[k] && helds[k] <= held && b.ctx !in helds[k])
    && (forall i, j :: 0 <= i < j < |reprs| ==> reprs[i] !! reprs[j] && helds[i] !! helds[j])
  }

  /** A builder over valid nested builders is valid, and its model consists of theirs. */
  lemma Rebuilt(b: Builder, q: Query, reprs: seq<set<Builder>>, helds: seq<set<Context>>)
    requires Layout(b.Repr, b.Held, b, reprs, helds)
    requires q.entity == b.entity && q.cfg == b.Cfg() && |q.withs| == |b.withs| == |reprs|
    requires forall k :: 0 <= k < |reprs| ==>
      && b.withs[k].sub in reprs[k] && q.withs[k].edge == b.withs[k].edge
      && Is(b.withs[k].sub, q.withs[k].sub, reprs[k], helds[k])
    ensures b.Valid() && b.Model() == q
  {
    assert b.Valid();
    assert b.Model().withs == q.withs;
  }

  /** Builders that share neither builders nor contexts. */
  ghost predicate Apart(a: Builder, b: Builder)
    reads a, b
  {
    a.Repr !! b.Repr && a.Held !! b.Held
  }

  /** Valid builders with the given models and nothing in common. */
  ghost predicate Copies(ws: seq<WithBuilder>, nested: set<Builder>, held: set<Context>, model: seq<With>)
    reads set k | 0 <= k < |ws| :: ws[k].sub, nested, held
  {
    && |ws| == |model|
    && (forall k :: 0 <= k < |ws| ==>
          && ws[k].sub.Repr <= nested && ws[k].sub.Held <= held && ws[k].sub.Valid()
          && With(ws[k].edge, ws[k].sub.Model()) == model[k])
    && (forall i, j :: 0 <= i < j < |ws| ==> Apart(ws[i].sub, ws[j].sub))
  }

  lemma CopiesSnoc(ws: seq<WithBuilder>, nested: set<Builder>, held: set<Context>, model: seq<With>, e: Edge, sub: Builder)
    requires Copies(ws, nested, held, model) && sub.Valid() && sub.Repr !! nested && sub.Held !! held
    ensures Copies(ws + [WithBuilder(e, sub)], nested + sub.Repr, held + sub.Held, model + [With(e, sub.Model())])
  {
  }

  datatype Terminal = Failed(error: Error) | NotFound | NotSingular | Found(node: Tree)

  function Unlocked(q: Query): (u: Query)
    ensures u.entity == q.entity && u.cfg == q.cfg.(locks := []) && |u.withs| == |q.withs|
    ensures forall k :: 0 <= k < |q.withs| ==> u.withs[k] == With(q.withs[k].edge, Unlocked(q.withs[k].sub))
  {
    Query(q.entity, q.cfg.(locks := []), seq(|q.withs|, k requires 0 <= k < |q.withs| =>
      With(q.withs[k].edge, Unlocked(q.withs[k].sub))))
  }

  const MAX_INT_32 := 0x7fff_ffff

  /** The window that a scan uses: an offset brings a limit with it. */
  function Scanned(db: Database, entity: Entity, cfg: Config): seq<Row> {
    var s := Matching(db, entity, cfg);
    var skip := if cfg.offset.None? then 0 else cfg.offset.value;
    var rest := if skip <= |s| then s[skip..] else [];
    var take :=
      if cfg.limit.Some? then cfg.limit.value
      else if cfg.offset.Some? then MAX_INT_32
      else |rest|;
    if |rest| <= take then rest else rest[..take]
  }

  /** A scan uses the window of the rows, except that a limit of zero gives none, and that
      an offset without a limit gives as many as a 32-bit number can count. */
  lemma ScannedIsWindow(db: Database, entity: Entity, cfg: Config)
    ensures Scanned(db, entity, cfg) ==
            if cfg.limit == Some(0) then []
            else if cfg.limit.Some? || cfg.offset.None? then Rows(db, entity, cfg)
            else Rows(db, entity, cfg.(limit := Some(MAX_INT_32)))
  {
    assert Matching(db, entity, cfg.(limit := Some(MAX_INT_32))) == Matching(db, entity, cfg);
  }

  /** Selecting the ID as well neither adds nor removes rows. */
  lemma SelectId(db: Database, entity: Entity, cfg: Config)
    requires ID in entity.columns
    ensures var cfg' := cfg.(fields := cfg.fields + [ID]);
            && (ValidFields(entity, cfg') <==> ValidFields(entity, cfg))
            && Scanned(db, entity, cfg') == Scanned(db, entity, cfg)
  {
    var cfg' := cfg.(fields := cfg.fields + [ID]);
    assert forall i :: 0 <= i < |cfg.fields| ==> cfg'.fields[i] == cfg.fields[i];
    assert Matching(db, entity, cfg') == Matching(db, entity, cfg);
  }

  function IdsOf(rows: seq<Row>): (ids: seq<int>)
    ensures |ids| == |rows|
    ensures forall i :: 0 <= i < |ids| ==> ids[i] == Id(rows[i])
  {
    seq(|rows|, i requires 0 <= i < |rows| => Id(rows[i]))
  }

  /** A limited run loads a prefix of the rows, and all of them if they are few. */
  lemma LimitedRun(db: Database, q: Query, cfg: Config, n: nat)
    requires n > 0
    ensures var all := Rows(db, q.entity, cfg.(limit := None));
            var some := Rows(db, q.entity, cfg.(limit := Some(n)));
            && some == (if |all| <= n then all else all[..n])
            && (BatchAll(db, q, cfg.(limit := Some(n))).Ok? ==> |BatchAll(db, q, cfg.(limit := Some(n))).value| == |some|)
            && (|all| <= n ==> BatchAll(db, q, cfg.(limit := Some(n))) == BatchAll(db, q, cfg.(limit := None)))
  {
    var all := Rows(db, q.entity, cfg.(limit := None));
    assert Matching(db, q.entity, cfg.(limit := Some(n))) == Matching(db, q.entity, cfg.(limit := None));
    if BatchAll(db, q, cfg.(limit := Some(n))).Ok? {
      LoadKeepsRows(db, q, cfg.(limit := Some(n)), Rows(db, q.entity, cfg.(limit := Some(n))));
    }
    assert BareAll(q, cfg.(limit := Some(n)), all) == BareAll(q, cfg.(limit := None), all);
  }

  /** The tree after the k-th edge was loaded. */
  ghost function AfterStep(db: Database, q: Query, ts: seq<Tree>, k: nat): Query
    requires k < |q.withs|
  {
    q.(withs := q.withs[k := With(q.withs[k].edge, AfterEdge(db, q.withs[k], ts))])
  }

  lemma StillRunnable(db: Database, q: Query, ts: seq<Tree>, k: nat)
    requires k < |q.withs| && RunnableFrom(db, q, k)
    ensures RunnableFrom(db, AfterStep(db, q, ts, k), k + 1)
  {
    var q' := AfterStep(db, q, ts, k);
    assert forall j :: k + 1 <= j < |q.withs| ==> q'.withs[j] == q.withs[j];
  }

  lemma AfterFailure(db: Database, q: Query, ts: seq<Tree>, k: nat)
    requires k < |q.withs| && BatchEdge(db, q.withs[k], ts).Err?
    ensures AfterStep(db, q, ts, k).withs == q.withs[..k] + AfterEdges(db, q, ts, k)
  {
  }

  lemma AfterSuccess(db: Database, q: Query, q': Query, ts: seq<Tree>, loaded: seq<Tree>, k: nat)
    requires k < |q.withs| && BatchEdge(db, q.withs[k], ts) == Ok(loaded)
    requires q' == AfterStep(db, q, ts, k)
    ensures BatchEdges(db, q', loaded, k + 1) == BatchEdges(db, q, ts, k)
    ensures q'.withs[..k + 1] + AfterEdges(db, q', loaded, k + 1) == q.withs[..k] + AfterEdges(db, q, ts, k)
  {
    var after := With(q.withs[k].edge, AfterEdge(db, q.withs[k], ts));
    EdgesUnfold(db, q, ts, loaded, k);
    Spliced(q.withs, q'.withs, k, after, AfterEdges(db, q, loaded, k + 1));
    EdgesSameShape(db, q, q', loaded, k + 1);
  }

  lemma LoadUnfold(db: Database, q: Query, rows: seq<Row>, ts: seq<Tree>)
    requires rows != [] && ts == BareAll(q, q.cfg, rows)
    ensures BatchLoad(db, q, q.cfg, rows) == BatchEdges(db, q, ts, 0)
    ensures q.(withs := AfterLoad(db, q, q.cfg, rows)) == q.(withs := q.withs[..0] + AfterEdges(db, q, ts, 0))
  {
  }

  lemma LoadNothing(db: Database, q: Query)
    ensures BatchLoad(db, q, q.cfg, []) == Ok([])
    ensures q.(withs := AfterLoad(db, q, q.cfg, [])) == q
  {
  }

  lemma EdgesUnfold(db: Database, q: Query, ts: seq<Tree>, loaded: seq<Tree>, k: nat)
    requires k < |q.withs| && BatchEdge(db, q.withs[k], ts) == Ok(loaded)
    ensures BatchEdges(db, q, ts, k) == BatchEdges(db, q, loaded, k + 1)
    ensures AfterEdges(db, q, ts, k) == [With(q.withs[k].edge, AfterEdge(db, q.withs[k], ts))] + AfterEdges(db, q, loaded, k + 1)
  {
  }

  lemma Spliced(s: seq<With>, s': seq<With>, k: nat, x: With, rest: seq<With>)
    requires k < |s| && s' == s[k := x]
    ensures s'[k + 1..] == s[k + 1..]
    ensures s'[..k + 1] + rest == s[..k] + ([x] + rest)
  {
    assert s'[..k + 1] == s[..k] + [x];
  }

  /** The outcome of loading one edge: an error, or the nodes hold the edge. */
  ghost predicate Settles(err: Option<Error>, ts: seq<Tree>, r: Result<seq<Tree>>) {
    match r
    case Err(e) => err == Some(e)
    case Ok(loaded) => err == None && ts == loaded
  }

  method LoadEdge(db: Database, w: WithBuilder, nodes: seq<Node>) returns (err: Option<Error>)
    requires w.sub.Valid() && Runnable(db, w.sub.Model(), w.edge.M2M?)
    requires w.edge.O2M? ==> w.edge.fk in w.sub.entity.columns
    requires !w.edge.O2M? ==> w.sub.entity.hasId
    requires Distinct(nodes) && nodes != [] && (!w.edge.M2O? ==> DistinctIds(nodes))
    modifies w.sub.Repr, w.sub.Held, nodes
    ensures Settles(err, Views(nodes), BatchEdge(db, With(w.edge, old(w.sub.Model())), old(Views(nodes))))
    ensures Is(w.sub, AfterEdge(db, With(w.edge, old(w.sub.Model())), old(Views(nodes))), old(w.sub.Repr), old(w.sub.Held))
    decreases w.sub.Repr, 7
  {
    match w.edge
    case M2O(_, _, _) => err := LoadM2O(db, w, nodes);
    case O2M(_, _, _) => err := LoadO2M(db, w, nodes);
    case M2M(_, _) => err := LoadM2M(db, w, nodes);
  }

  /** Runs a nested builder under the configuration of a batch, which it keeps. */
  method Fetch(db: Database, w: WithBuilder, cfg: Config, ghost ts: seq<Tree>) returns (r: Result<seq<Tree>>)
    requires !w.edge.M2M? && w.sub.Valid() && Runnable(db, w.sub.Model(), false)
    requires cfg == BatchConfig(With(w.edge, w.sub.Model()), ts)
    requires w.edge.M2O? ==> KeyList(ts, w.edge.fk, w.edge.required) != []
    modifies w.sub.Repr, w.sub.Held
    ensures r == BatchAll(db, old(w.sub.Model()), cfg)
    ensures Is(w.sub, AfterEdge(db, With(w.edge, old(w.sub.Model())), ts), old(w.sub.Repr), old(w.sub.Held))
    decreases w.sub.Repr, 4
  {
    ghost var q := w.sub.Model();
    RunnableBatch(db, With(w.edge, q), ts);
    w.sub.Configure(cfg);
    RunSameShape(db, q, w.sub.Model(), cfg);
    r := w.sub.All(db);
  }

  method FetchJoined(db: Database, w: WithBuilder, cfg: Config, byID: map<int, Node>, ghost ts: seq<Tree>)
    returns (r: Result<seq<Tree>>, nids: map<int, set<Node>>)
    requires w.edge.M2M? && w.sub.Valid() && w.sub.entity.hasId && Runnable(db, w.sub.Model(), true)
    requires cfg == BatchConfig(With(w.edge, w.sub.Model()), ts)
    requires OwnIds(byID) && forall id :: id in IdList(ts) ==> id in byID
    modifies w.sub.Repr, w.sub.Held
    ensures r == BatchJoined(db, old(w.sub.Model()), cfg)
    ensures r.Ok? ==> Records(nids, byID, JoinRows(db, w.sub.entity, cfg))
    ensures Is(w.sub, AfterEdge(db, With(w.edge, old(w.sub.Model())), ts), old(w.sub.Repr), old(w.sub.Held))
    decreases w.sub.Repr, 4
  {
    ghost var q := w.sub.Model();
    RunnableBatch(db, With(w.edge, q), ts);
    JoinsAppend(q.cfg.preds, JoinIn(w.edge.join, IdList(ts)));
    w.sub.Configure(cfg);
    RunSameShape(db, q, w.sub.Model(), cfg);
    var hook := new JoinHook(byID);
    r := w.sub.AllJoined(db, hook);
    nids := hook.nids;
  }

  lemma RunnableBatch(db: Database, w: With, ts: seq<Tree>)
    requires Runnable(db, w.sub, w.edge.M2M?)
    ensures Runnable(db, w.sub.(cfg := BatchConfig(w, ts)), w.edge.M2M?)
  {
    match w.edge
    case M2O(_, fk, required) => JoinsAppend(w.sub.cfg.preds, ColIn(ID, KeyList(ts, fk, required)));
    case O2M(_, fk, _) => JoinsAppend(w.sub.cfg.Force(fk).preds, ColIn(fk, IdList(ts)));
    case M2M(_, _) =>
  }

  method LoadM2O(db: Database, w: WithBuilder, nodes: seq<Node>) returns (err: Option<Error>)
    requires w.edge.M2O? && w.sub.Valid() && Runnable(db, w.sub.Model(), false) && w.sub.entity.hasId
    requires Distinct(nodes)
    modifies w.sub.Repr, w.sub.Held, nodes
    ensures Settles(err, Views(nodes), BatchEdge(db, With(w.edge, old(w.sub.Model())), old(Views(nodes))))
    ensures Is(w.sub, AfterEdge(db, With(w.edge, old(w.sub.Model())), old(Views(nodes))), old(w.sub.Repr), old(w.sub.Held))
    decreases w.sub.Repr, 6
  {
    var ids, nodeids := GroupByKey(nodes, w.edge.fk, w.edge.required);
    if ids == [] {
      return None;
    }
    err := LoadByKeys(db, w, nodes, ids, nodeids);
  }

  method LoadByKeys(db: Database, w: WithBuilder, nodes: seq<Node>, ids: seq<int>, nodeids: map<int, seq<Node>>)
    returns (err: Option<Error>)
    requires w.edge.M2O? && w.sub.Valid() && Runnable(db, w.sub.Model(), false) && w.sub.entity.hasId
    requires Distinct(nodes) && Groups(nodes, w.edge.fk, w.edge.required, nodeids)
    requires ids == KeyList(Views(nodes), w.edge.fk, w.edge.required) && ids != []
    requires nodeids.Keys == set id | id in ids
    modifies w.sub.Repr, w.sub.Held, nodes
    ensures Settles(err, Views(nodes), BatchEdge(db, With(w.edge, old(w.sub.Model())), old(Views(nodes))))
    ensures Is(w.sub, AfterEdge(db, With(w.edge, old(w.sub.Model())), old(Views(nodes))), old(w.sub.Repr), old(w.sub.Held))
    decreases w.sub.Repr, 5
  {
    ghost var q, ts := w.sub.Model(), Views(nodes);
    var r := Fetch(db, w, w.sub.Cfg().Where(ColIn(ID, ids)), ts);
    if r.Err? {
      BatchFails(db, With(w.edge, q), ts, r.error);
      return Some(r.error);
    }
    err := AttachM2O(db, w.edge, q, nodes, nodeids, r.value);
  }

  lemma BatchFails(db: Database, w: With, ts: seq<Tree>, e: Error)
    requires w.edge.M2O? && KeyList(ts, w.edge.fk, w.edge.required) != []
    requires BatchAll(db, w.sub, BatchConfig(w, ts)) == Err(e)
    ensures BatchEdge(db, w, ts) == Err(e)
  {
  }

  /** Writes the neighbors of an M2O edge, which all carry a requested ID. */
  method AttachM2O(ghost db: Database, e: Edge, ghost sub: Query, nodes: seq<Node>, nodeids: map<int, seq<Node>>, ns: seq<Tree>)
    returns (err: Option<Error>)
    requires e.M2O? && WellTyped(sub) && sub.entity.hasId && Distinct(nodes)
    requires nodeids.Keys == set id | id in KeyList(Views(nodes), e.fk, e.required)
    requires KeyList(Views(nodes), e.fk, e.required) != []
    requires Groups(nodes, e.fk, e.required, nodeids)
    requires BatchAll(db, sub, BatchConfig(With(e, sub), Views(nodes))) == Ok(ns)
    modifies nodes
    ensures err == None && BatchEdge(db, With(e, sub), old(Views(nodes))) == Ok(Views(nodes))
  {
    ghost var w := With(e, sub);
    ghost var ts := Views(nodes);
    M2OKeysKnown(db, w.sub, w.sub.cfg, KeyList(ts, w.edge.fk, w.edge.required), ns);
    err := AssignOne(nodes, nodeids, e, ns);
    M2OSettled(db, w, ts, ns, Views(nodes));
  }

  lemma M2OSettled(db: Database, w: With, ts: seq<Tree>, ns: seq<Tree>, loaded: seq<Tree>)
    requires w.edge.M2O? && KeyList(ts, w.edge.fk, w.edge.required) != []
    requires BatchAll(db, w.sub, BatchConfig(w, ts)) == Ok(ns)
    requires |loaded| == |ts| && forall i :: 0 <= i < |ts| ==> loaded[i] == AttachOne(ts[i], w.edge, ns)
    ensures BatchEdge(db, w, ts) == Ok(loaded)
  {
    assert BatchEdge(db, w, ts).value == loaded;
  }

  lemma M2OKeysKnown(db: Database, q: Query, cfg: Config, ids: seq<int>, ns: seq<Tree>)
    requires WellTyped(q) && q.entity.hasId
    requires BatchAll(db, q, cfg.Where(ColIn(ID, ids))) == Ok(ns)
    ensures forall i :: 0 <= i < |ns| ==> Id(ns[i].row) in ids
  {
    var cfg' := cfg.Where(ColIn(ID, ids));
    var rows := Rows(db, q.entity, cfg');
    RowsHold(db, q.entity, cfg, ColIn(ID, ids));
    LoadKeepsRows(db, q, cfg', rows);
    ForcedColumns(q, cfg'.fields);
    KeysAreKnown(q, cfg', ID, ns, rows, ids);
  }

  method LoadO2M(db: Database, w: WithBuilder, nodes: seq<Node>) returns (err: Option<Error>)
    requires w.edge.O2M? && w.sub.Valid() && Runnable(db, w.sub.Model(), false)
    requires w.edge.fk in w.sub.entity.columns
    requires Distinct(nodes) && DistinctIds(nodes)
    modifies w.sub.Repr, w.sub.Held, nodes
    ensures Settles(err, Views(nodes), BatchEdge(db, With(w.edge, old(w.sub.Model())), old(Views(nodes))))
    ensures Is(w.sub, AfterEdge(db, With(w.edge, old(w.sub.Model())), old(Views(nodes))), old(w.sub.Repr), old(w.sub.Held))
    decreases w.sub.Repr, 6
  {
    ghost var ts := Views(nodes);
    var ids, index := IndexById(nodes, w.edge.name);
    assert ids == IdList(ts);
    err := LoadByParents(db, w, nodes, ids, index, ts);
  }

  method LoadByParents(db: Database, w: WithBuilder, nodes: seq<Node>, ids: seq<int>, index: map<int, Node>, ghost ts: seq<Tree>)
    returns (err: Option<Error>)
    requires w.edge.O2M? && w.sub.Valid() && Runnable(db, w.sub.Model(), false)
    requires w.edge.fk in w.sub.entity.columns
    requires Distinct(nodes) && DistinctIds(nodes) && IsIndex(nodes, index) && ids == IdList(ts)
    requires Lists(nodes, ts, w.edge.name, seq(|nodes|, i => []))
    modifies w.sub.Repr, w.sub.Held, nodes
    ensures Is(w.sub, AfterEdge(db, With(w.edge, old(w.sub.Model())), ts), old(w.sub.Repr), old(w.sub.Held))
    ensures Settles(err, Views(nodes), BatchEdge(db, With(w.edge, old(w.sub.Model())), ts))
    decreases w.sub.Repr, 5
  {
    ghost var q := w.sub.Model();
    var r := Fetch(db, w, w.sub.Cfg().Force(w.edge.fk).Where(ColIn(w.edge.fk, ids)), ts);
    if r.Err? {
      return Some(r.error);
    }
    err := AttachO2M(db, w.edge, q, nodes, index, r.value, ts);
  }

  /** Writes the neighbors of an O2M edge, which all point to a node at hand. */
  method AttachO2M(ghost db: Database, e: Edge, ghost sub: Query, nodes: seq<Node>, index: map<int, Node>, ns: seq<Tree>, ghost ts: seq<Tree>)
    returns (err: Option<Error>)
    requires e.O2M? && WellTyped(sub) && e.fk in sub.entity.columns
    requires Distinct(nodes) && DistinctIds(nodes) && IsIndex(nodes, index)
    requires Lists(nodes, ts, e.name, seq(|nodes|, i => []))
    requires BatchAll(db, sub, BatchConfig(With(e, sub), ts)) == Ok(ns)
    modifies nodes
    ensures err == None && BatchEdge(db, With(e, sub), ts) == Ok(Views(nodes))
  {
    ghost var w := With(e, sub);
    SameNodes(nodes, ts, w.edge.name);
    O2MKeysKnown(db, w.sub, w.edge, IdList(ts), index, ns);
    err := AssignMany(nodes, index, e, ns, ts);
    O2MSettled(db, w, nodes, index, ts, ns, Views(nodes));
  }

  lemma SameNodes(nodes: seq<Node>, ts: seq<Tree>, name: string)
    requires Lists(nodes, ts, name, seq(|nodes|, i => []))
    ensures |nodes| == |ts| && forall i :: 0 <= i < |ts| ==> nodes[i].row == ts[i].row
    ensures forall id :: id in IdList(ts) ==> exists i :: 0 <= i < |nodes| && Id(nodes[i].row) == id
  {
    forall i | 0 <= i < |ts| ensures nodes[i].row == ts[i].row {
      assert nodes[i].View().row == ts[i].row;
    }
    forall id | id in IdList(ts) ensures exists i :: 0 <= i < |nodes| && Id(nodes[i].row) == id {
      var i :| 0 <= i < |ts| && IdList(ts)[i] == id;
      assert Id(nodes[i].row) == id;
    }
  }

  lemma O2MKeysKnown(db: Database, q: Query, e: Edge, ids: seq<int>, index: map<int, Node>, ns: seq<Tree>)
    requires WellTyped(q) && e.O2M? && e.fk in q.entity.columns
    requires forall id :: id in ids ==> id in index
    requires BatchAll(db, q, q.cfg.Force(e.fk).Where(ColIn(e.fk, ids))) == Ok(ns)
    ensures KeyError(index, e, ns).None?
  {
    var from := q.cfg.Force(e.fk);
    var cfg := from.Where(ColIn(e.fk, ids));
    var rows := Rows(db, q.entity, cfg);
    RowsHold(db, q.entity, from, ColIn(e.fk, ids));
    LoadKeepsRows(db, q, cfg, rows);
    ForcedColumns(q, cfg.fields);
    KeysAreKnown(q, cfg, e.fk, ns, rows, ids);
    KeyErrorExactly(index, e, ns);
  }

  lemma O2MSettled(db: Database, w: With, nodes: seq<Node>, index: map<int, Node>, ts: seq<Tree>, ns: seq<Tree>, loaded: seq<Tree>)
    requires w.edge.O2M? && Distinct(nodes) && DistinctIds(nodes) && IsIndex(nodes, index)
    requires BatchAll(db, w.sub, BatchConfig(w, ts)) == Ok(ns)
    requires |loaded| == |ts| == |nodes| && forall i :: 0 <= i < |ts| ==> nodes[i].row == ts[i].row
    requires forall i :: 0 <= i < |ts| ==>
      loaded[i] == ts[i].(many := ts[i].many[w.edge.name := ListOf(index, nodes[i], w.edge, ns)])
    ensures BatchEdge(db, w, ts) == Ok(loaded)
  {
    forall i | 0 <= i < |ts| ensures loaded[i] == AttachMany(ts[i], w.edge, ns) {
      LastIsIndexed(nodes, index, i);
    }
    assert BatchEdge(db, w, ts).value == loaded;
  }

  method LoadM2M(db: Database, w: WithBuilder, nodes: seq<Node>) returns (err: Option<Error>)
    requires w.edge.M2M? && w.sub.Valid() && Runnable(db, w.sub.Model(), true) && w.sub.entity.hasId
    requires Distinct(nodes) && DistinctIds(nodes)
    modifies w.sub.Repr, w.sub.Held, nodes
    ensures Settles(err, Views(nodes), BatchEdge(db, With(w.edge, old(w.sub.Model())), old(Views(nodes))))
    ensures Is(w.sub, AfterEdge(db, With(w.edge, old(w.sub.Model())), old(Views(nodes))), old(w.sub.Repr), old(w.sub.Held))
    decreases w.sub.Repr, 6
  {
    ghost var ts := Views(nodes);
    var ids, byID := IndexById(nodes, w.edge.name);
    assert ids == IdList(ts);
    err := LoadByOwners(db, w, nodes, ids, byID, ts);
  }

  method LoadByOwners(db: Database, w: WithBuilder, nodes: seq<Node>, ids: seq<int>, byID: map<int, Node>, ghost ts: seq<Tree>)
    returns (err: Option<Error>)
    requires w.edge.M2M? && w.sub.Valid() && Runnable(db, w.sub.Model(), true) && w.sub.entity.hasId
    requires Distinct(nodes) && DistinctIds(nodes) && IsIndex(nodes, byID) && ids == IdList(ts)
    requires Lists(nodes, ts, w.edge.name, seq(|nodes|, i => []))
    modifies w.sub.Repr, w.sub.Held, nodes
    ensures Settles(err, Views(nodes), BatchEdge(db, With(w.edge, old(w.sub.Model())), ts))
    ensures Is(w.sub, AfterEdge(db, With(w.edge, old(w.sub.Model())), ts), old(w.sub.Repr), old(w.sub.Held))
    decreases w.sub.Repr, 5
  {
    ghost var q := w.sub.Model();
    SameNodes(nodes, ts, w.edge.name);
    var r, nids := FetchJoined(db, w, w.sub.Cfg().Where(JoinIn(w.edge.join, ids)), byID, ts);
    if r.Err? {
      return Some(r.error);
    }
    err := AttachM2M(db, w.edge, q, nodes, nids, byID, r.value, ts);
  }

  /** Writes the neighbors of an M2M edge, which were all recorded for a node. */
  method AttachM2M(ghost db: Database, e: Edge, ghost sub: Query, nodes: seq<Node>, nids: map<int, set<Node>>,
                   ghost byID: map<int, Node>, ns: seq<Tree>, ghost ts: seq<Tree>)
    returns (err: Option<Error>)
    requires e.M2M? && WellTyped(sub) && sub.entity.hasId
    requires Distinct(nodes) && DistinctIds(nodes) && IsIndex(nodes, byID)
    requires Lists(nodes, ts, e.name, seq(|nodes|, i => []))
    requires BatchJoined(db, sub, BatchConfig(With(e, sub), ts)) == Ok(ns)
    requires Records(nids, byID, JoinRows(db, sub.entity, BatchConfig(With(e, sub), ts)))
    modifies nodes
    ensures err == None && BatchEdge(db, With(e, sub), ts) == Ok(Views(nodes))
  {
    ghost var w := With(e, sub);
    ghost var js := JoinRows(db, w.sub.entity, BatchConfig(w, ts));
    SameNodes(nodes, ts, w.edge.name);
    M2MKeysKnown(db, w.sub, BatchConfig(w, ts), nids, byID, ns);
    AllKnownExactly(nids.Keys, ns);
    RecordsConnect(nodes, nids, byID, js);
    err := AssignJoined(nodes, nids, e, ns, byID, js, ts);
    M2MSettled(db, w, nodes, byID, ts, ns, js, Views(nodes));
  }

  lemma M2MKeysKnown(db: Database, q: Query, cfg: Config, nids: map<int, set<Node>>, byID: map<int, Node>, ns: seq<Tree>)
    requires WellTyped(q) && q.entity.hasId
    requires Records(nids, byID, JoinRows(db, q.entity, cfg))
    requires BatchJoined(db, q, cfg) == Ok(ns)
    ensures forall i :: 0 <= i < |ns| ==> Id(ns[i].row) in nids
  {
    var js := JoinRows(db, q.entity, cfg);
    var rows := FirstOfEach(js, {});
    FirstOfEachMembers(js, {});
    LoadKeepsRows(db, q, cfg, rows);
    ForcedColumns(q, cfg.fields);
    forall i | 0 <= i < |ns| ensures Id(ns[i].row) in nids {
      assert rows[i] in rows;
      var j :| 0 <= j < |js| && js[j].row == rows[i];
      assert Id(js[j].row) in nids;
    }
  }

  lemma M2MSettled(db: Database, w: With, nodes: seq<Node>, byID: map<int, Node>, ts: seq<Tree>, ns: seq<Tree>, js: seq<Joined>, loaded: seq<Tree>)
    requires w.edge.M2M? && Distinct(nodes) && DistinctIds(nodes) && IsIndex(nodes, byID)
    requires BatchJoined(db, w.sub, BatchConfig(w, ts)) == Ok(ns)
    requires js == JoinRows(db, w.sub.entity, BatchConfig(w, ts))
    requires |loaded| == |ts| == |nodes| && forall i :: 0 <= i < |ts| ==> nodes[i].row == ts[i].row
    requires forall i :: 0 <= i < |ts| ==>
      loaded[i] == ts[i].(many := ts[i].many[w.edge.name := JoinListOf(byID, nodes[i], js, ns)])
    ensures BatchEdge(db, w, ts) == Ok(loaded)
  {
    forall i | 0 <= i < |ts| ensures loaded[i] == AttachJoined(ts[i], w.edge, ns, js) {
      LastIsIndexed(nodes, byID, i);
    }
    assert BatchEdge(db, w, ts).value == loaded;
  }

  ghost predicate DistinctIds(nodes: seq<Node>) {
    forall i, j :: 0 <= i < j < |nodes| ==> Id(nodes[i].row) != Id(nodes[j].row)
  }

  /** One fresh node per row, holding the selected columns and no edges yet. */
  method Decode(cols: seq<string>, loaded: set<string>, rows: seq<Row>) returns (nodes: seq<Node>)
    ensures |nodes| == |rows| && fresh(nodes) && Distinct(nodes)
    ensures forall i :: 0 <= i < |nodes| ==> nodes[i].View() == Tree(Project(rows[i], cols), loaded, map[], map[])
  {
    nodes := [];
    for i := 0 to |rows|
      invariant |nodes| == i && fresh(nodes) && Distinct(nodes)
      invariant forall j :: 0 <= j < i ==> nodes[j].View() == Tree(Project(rows[j], cols), loaded, map[], map[])
    {
      var n := new Node(Project(rows[i], cols), loaded);
      nodes := nodes + [n];
    }
  }
}
