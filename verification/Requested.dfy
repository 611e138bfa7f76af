/**
  What the nodes of any successful run show, at every depth and whatever the windows, the
  used builders and the database: exactly the requested columns and edges.
 */
module Requested {
  import opened Options
  import opened Store
  import opened EagerLoad
  import opened EdgeAccess
  import opened BatchFacts

  /** At every depth the entity names its edges apart. */
  predicate NamesApart(q: Query) {
    DistinctNames(q) && forall k :: 0 <= k < |q.withs| ==> NamesApart(q.withs[k].sub)
  }

  /** The foreign key that loading an O2M edge adds to a selection of its builder. */
  function ForcedBy(e: Edge): Option<string> {
    if e.O2M? then Some(e.fk) else None
  }

  ghost predicate ShowsColumn(q: Query, forced: Option<string>, c: string) {
    ReadsColumn(q, q.cfg.fields, c) || (q.cfg.fields != [] && forced == Some(c))
  }

  /** The node displays these columns of the row, as far as it has them, and no others. */
  ghost predicate Displays(q: Query, forced: Option<string>, row: Row, shown: Row) {
    && (forall c :: c in shown <==> c in row && ShowsColumn(q, forced, c))
    && (forall c :: c in shown ==> shown[c] == row[c])
  }

  /** A row of the builder's table that meets its predicates. */
  ghost predicate Selects(db: Database, q: Query, row: Row) {
    row in db.Table(q.entity.table) && HoldsAll(q.cfg.preds, row)
  }

  ghost predicate ShowsRow(db: Database, q: Query, forced: Option<string>, shown: Row) {
    exists row :: Selects(db, q, row) && Displays(q, forced, row, shown)
  }

  /** The node displays a row that the builder selects. Its accessors, and those of all
      nodes that they give, report an edge as not loaded exactly if the query does not
      request it. */
  ghost predicate ShowsRequested(db: Database, q: Query, forced: Option<string>, t: Tree)
    decreases q, 0
  {
    && ShowsRow(db, q, forced, t.row)
    && (forall name: string :: OneOrErr(t, name).NotLoaded? <==> !NamedFrom(q, 0, name))
    && (forall name: string :: ManyOrErr(t, name).NotLoaded? <==> !NamedFrom(q, 0, name))
    && forall k :: 0 <= k < |q.withs| ==> ShowsBehind(db, q.withs[k], t)
  }

  ghost predicate ShowsBehind(db: Database, w: With, t: Tree)
    decreases w
  {
    && (OneOrErr(t, w.edge.name).Got? ==> ShowsRequested(db, w.sub, ForcedBy(w.edge), OneOrErr(t, w.edge.name).value))
    && (ManyOrErr(t, w.edge.name).Got? ==> AllShow(db, w.sub, ForcedBy(w.edge), ManyOrErr(t, w.edge.name).value))
  }

  ghost predicate AllShow(db: Database, q: Query, forced: Option<string>, ts: seq<Tree>)
    decreases q, 1
  {
    forall i :: 0 <= i < |ts| ==> ShowsRequested(db, q, forced, ts[i])
  }

  ghost predicate Unattached(w: With, t: Tree) {
    w.edge.name !in t.one && w.edge.name !in t.many
  }

  /** A node into which the first k edges were loaded. */
  ghost predicate LoadedUpTo(db: Database, q: Query, forced: Option<string>, t: Tree, k: nat)
    requires k <= |q.withs|
  {
    && ShowsRow(db, q, forced, t.row) && t.loaded == EdgeNames(EdgesOf(q))
    && t.one.Keys <= t.loaded
    && (forall j :: k <= j < |q.withs| ==> Unattached(q.withs[j], t))
    && (forall j :: 0 <= j < k ==> ShowsBehind(db, q.withs[j], t))
  }

  lemma NamedExactly(q: Query, name: string)
    ensures name in EdgeNames(EdgesOf(q)) <==> NamedFrom(q, 0, name)
  {
    var es := EdgesOf(q);
    if name in EdgeNames(es) {
      var j :| 0 <= j < |es| && es[j].name == name;
      assert q.withs[j].edge.name == name;
    }
    if j :| 0 <= j < |q.withs| && q.withs[j].edge.name == name {
      assert es[j].name == name;
    }
  }

  lemma AllLoadedShows(db: Database, q: Query, forced: Option<string>, t: Tree)
    requires LoadedUpTo(db, q, forced, t, |q.withs|)
    ensures ShowsRequested(db, q, forced, t)
  {
    forall name: string
      ensures OneOrErr(t, name).NotLoaded? <==> !NamedFrom(q, 0, name)
      ensures ManyOrErr(t, name).NotLoaded? <==> !NamedFrom(q, 0, name)
    {
      NamedExactly(q, name);
    }
  }

  lemma {:induction false} LastShows(db: Database, q: Query, forced: Option<string>, ns: seq<Tree>, id: int)
    requires AllShow(db, q, forced, ns)
    ensures LastWithId(ns, id).Some? ==> ShowsRequested(db, q, forced, LastWithId(ns, id).value)
  {
    if ns != [] {
      LastShows(db, q, forced, ns[..|ns| - 1], id);
    }
  }

  lemma {:induction false} KeptShow(db: Database, q: Query, forced: Option<string>, ns: seq<Tree>, fk: string, required: bool, id: int)
    requires AllShow(db, q, forced, ns)
    ensures AllShow(db, q, forced, KeepKey(ns, fk, required, id))
  {
    if ns != [] {
      KeptShow(db, q, forced, ns[..|ns| - 1], fk, required, id);
    }
  }

  lemma {:induction false} JoinedShow(db: Database, q: Query, forced: Option<string>, ns: seq<Tree>, js: seq<Joined>, owner: int)
    requires AllShow(db, q, forced, ns)
    ensures AllShow(db, q, forced, KeepJoined(ns, js, owner))
  {
    if ns != [] {
      JoinedShow(db, q, forced, ns[..|ns| - 1], js, owner);
    }
  }

  /** Loading an edge marks nothing, and changes nothing under another name. */
  ghost predicate AddsEdge(db: Database, w: With, t: Tree, u: Tree) {
    && u.row == t.row && u.loaded == t.loaded && ShowsBehind(db, w, u)
    && (forall name :: name != w.edge.name ==> SameAt(t, u, name))
  }

  lemma AttachedOne(db: Database, w: With, t: Tree, ns: seq<Tree>)
    requires w.edge.M2O? && Unattached(w, t) && AllShow(db, w.sub, ForcedBy(w.edge), ns)
    ensures AddsEdge(db, w, t, AttachOne(t, w.edge, ns))
  {
    var key := ForeignKey(t.row, w.edge.fk, w.edge.required);
    if key.Some? {
      LastShows(db, w.sub, ForcedBy(w.edge), ns, key.value);
    }
  }

  lemma AttachedMany(db: Database, w: With, t: Tree, ns: seq<Tree>)
    requires w.edge.O2M? && Unattached(w, t) && AllShow(db, w.sub, ForcedBy(w.edge), ns)
    ensures AddsEdge(db, w, t, AttachMany(t, w.edge, ns))
  {
    KeptShow(db, w.sub, ForcedBy(w.edge), ns, w.edge.fk, w.edge.required, Id(t.row));
  }

  lemma AttachedJoined(db: Database, w: With, t: Tree, ns: seq<Tree>, js: seq<Joined>)
    requires w.edge.M2M? && Unattached(w, t) && AllShow(db, w.sub, ForcedBy(w.edge), ns)
    ensures AddsEdge(db, w, t, AttachJoined(t, w.edge, ns, js))
  {
    JoinedShow(db, w.sub, ForcedBy(w.edge), ns, js, Id(t.row));
  }

  lemma {:induction false} EdgeShows(db: Database, w: With, ts: seq<Tree>, i: nat)
    requires NamesApart(w.sub) && BatchEdge(db, w, ts).Ok?
    requires i < |ts| && Unattached(w, ts[i])
    ensures AddsEdge(db, w, ts[i], BatchEdge(db, w, ts).value[i])
    decreases w
  {
    var cfg := BatchConfig(w, ts);
    match w.edge
    case M2O(_, fk, required) =>
      if KeyList(ts, fk, required) != [] {
        RunShows(db, w.sub, None, cfg);
        AttachedOne(db, w, ts[i], BatchAll(db, w.sub, cfg).value);
      }
    case O2M(_, fk, required) =>
      RunShows(db, w.sub, Some(fk), cfg);
      AttachedMany(db, w, ts[i], BatchAll(db, w.sub, cfg).value);
    case M2M(_, _) =>
      JoinedRunShows(db, w.sub, cfg);
      AttachedJoined(db, w, ts[i], BatchJoined(db, w.sub, cfg).value, JoinRows(db, w.sub.entity, cfg));
  }

  lemma StepKeeps(db: Database, q: Query, forced: Option<string>, t: Tree, u: Tree, k: nat)
    requires NamesApart(q) && k < |q.withs| && LoadedUpTo(db, q, forced, t, k)
    requires AddsEdge(db, q.withs[k], t, u)
    ensures LoadedUpTo(db, q, forced, u, k + 1)
  {
    var w := q.withs[k];
    forall j | 0 <= j < |q.withs| && j != k ensures SameAt(t, u, q.withs[j].edge.name) {
      assert q.withs[if j < k then j else k].edge.name != q.withs[if j < k then k else j].edge.name;
    }
    forall j | 0 <= j < k ensures ShowsBehind(db, q.withs[j], u) {
      assert SameAt(t, u, q.withs[j].edge.name) && ShowsBehind(db, q.withs[j], t);
    }
    NamedExactly(q, w.edge.name);
    forall name | name in u.one ensures name in u.loaded {
      assert name != w.edge.name ==> SameAt(t, u, name);
    }
  }

  lemma {:induction false} EdgesShow(db: Database, q: Query, forced: Option<string>, ts: seq<Tree>, k: nat)
    requires NamesApart(q) && k <= |q.withs| && BatchEdges(db, q, ts, k).Ok?
    requires forall i :: 0 <= i < |ts| ==> LoadedUpTo(db, q, forced, ts[i], k)
    ensures AllShow(db, q, forced, BatchEdges(db, q, ts, k).value)
    decreases q, 0, |q.withs| - k
  {
    if k == |q.withs| {
      forall i | 0 <= i < |ts| ensures ShowsRequested(db, q, forced, ts[i]) {
        AllLoadedShows(db, q, forced, ts[i]);
      }
    } else {
      var us := BatchEdge(db, q.withs[k], ts).value;
      forall i | 0 <= i < |us| ensures LoadedUpTo(db, q, forced, us[i], k + 1) {
        EdgeShows(db, q.withs[k], ts, i);
        StepKeeps(db, q, forced, ts[i], us[i], k);
      }
      EdgesShow(db, q, forced, us, k + 1);
    }
  }

  /** A configuration in which a builder is run: its own, or one narrowed by an edge. */
  ghost predicate RunAs(q: Query, forced: Option<string>, cfg: Config) {
    && cfg.fields == (if forced.Some? then q.cfg.Force(forced.value) else q.cfg).fields
    && q.cfg.preds <= cfg.preds
  }

  lemma BareShows(db: Database, q: Query, forced: Option<string>, cfg: Config, row: Row)
    requires RunAs(q, forced, cfg) && Selects(db, q, row)
    ensures ShowsRow(db, q, forced, Bare(q, cfg, row).row)
  {
    ColumnsExactly(q, cfg.fields);
    forall c ensures c in Columns(q, cfg.fields) <==> ShowsColumn(q, forced, c) {
    }
    assert Displays(q, forced, row, Project(row, Columns(q, cfg.fields)));
  }

  lemma MatchingSelects(db: Database, q: Query, cfg: Config, row: Row)
    requires q.cfg.preds <= cfg.preds && row in Matching(db, q.entity, cfg)
    ensures Selects(db, q, row)
  {
    var table := db.Table(q.entity.table);
    SortSorts(cfg.order, Select(cfg.preds, table));
    assert row in multiset(Matching(db, q.entity, cfg));
    SelectMembers(cfg.preds, table);
    assert forall i :: 0 <= i < |q.cfg.preds| ==> q.cfg.preds[i] == cfg.preds[i];
  }

  lemma JoinedSelects(db: Database, q: Query, cfg: Config, row: Row)
    requires q.cfg.preds <= cfg.preds && row in FirstOfEach(JoinRows(db, q.entity, cfg), {})
    ensures Selects(db, q, row)
  {
    var js := JoinRows(db, q.entity, cfg);
    FirstOfEachMembers(js, {});
    var j :| 0 <= j < |js| && js[j].row == row;
    var join := Joins(cfg.preds)[0];
    var all := JoinAll(db.Pairs(join.join), join.owners, Matching(db, q.entity, cfg));
    assert js[j] in js && js[j] in all;
    JoinAllMembers(db.Pairs(join.join), join.owners, Matching(db, q.entity, cfg));
    MatchingSelects(db, q, cfg, row);
  }

  lemma {:induction false} LoadShows(db: Database, q: Query, forced: Option<string>, cfg: Config, rows: seq<Row>)
    requires NamesApart(q) && RunAs(q, forced, cfg) && BatchLoad(db, q, cfg, rows).Ok?
    requires forall i :: 0 <= i < |rows| ==> Selects(db, q, rows[i])
    ensures AllShow(db, q, forced, BatchLoad(db, q, cfg, rows).value)
    decreases q, 1
  {
    if rows != [] {
      var ts := BareAll(q, cfg, rows);
      forall i | 0 <= i < |ts| ensures LoadedUpTo(db, q, forced, ts[i], 0) {
        BareShows(db, q, forced, cfg, rows[i]);
      }
      EdgesShow(db, q, forced, ts, 0);
    }
  }

  lemma {:induction false} RunShows(db: Database, q: Query, forced: Option<string>, cfg: Config)
    requires NamesApart(q) && RunAs(q, forced, cfg) && BatchAll(db, q, cfg).Ok?
    ensures AllShow(db, q, forced, BatchAll(db, q, cfg).value)
    decreases q, 2
  {
    var rows := Rows(db, q.entity, cfg);
    forall i | 0 <= i < |rows| ensures Selects(db, q, rows[i]) {
      MatchingSelects(db, q, cfg, rows[i]);
    }
    LoadShows(db, q, forced, cfg, rows);
  }

  lemma {:induction false} JoinedRunShows(db: Database, q: Query, cfg: Config)
    requires NamesApart(q) && RunAs(q, None, cfg) && BatchJoined(db, q, cfg).Ok?
    ensures AllShow(db, q, None, BatchJoined(db, q, cfg).value)
    decreases q, 2
  {
    var rows := FirstOfEach(JoinRows(db, q.entity, cfg), {});
    forall i | 0 <= i < |rows| ensures Selects(db, q, rows[i]) {
      JoinedSelects(db, q, cfg, rows[i]);
    }
    LoadShows(db, q, None, cfg, rows);
  }

  /** After every successful run, of any tree of builders under any windows and left over
      from any earlier runs, every node at every depth displays a selected row in exactly
      the columns to be read, and the accessors tell exactly which edges were requested. */
  lemma RunShowsRequested(db: Database, q: Query)
    requires NamesApart(q) && BatchAll(db, q, q.cfg).Ok?
    ensures AllShow(db, q, None, BatchAll(db, q, q.cfg).value)
  {
    RunShows(db, q, None, q.cfg);
  }
}
